/** What the legs and the summary of an answer say about the trip, hop by hop. */
module LegsSpelledOut {
  import opened Geo
  import Polyline
  import opened Network
  import opened ShortestPath
  import opened Itinerary
  import opened Journey
  import opened Planner
  import opened PlannerGuarantees

  // ---- The summary ---------------------------------------------------------------

  /** The rider gets on a bus for hop `i`: it is a ride, and no ride leads up to it. */
  predicate GetsOn(es: seq<Edge>, i: int) {
    0 <= i < |es| && es[i].kind.RIDE? && (i == 0 || es[i - 1].kind.TRANSFER?)
  }

  /** Where the riding sections begin, in order. */
  function Starts(ss: seq<Section>): seq<int> {
    if ss == [] then []
    else Starts(ss[..|ss| - 1]) + if ss[|ss| - 1].Riding? then [ss[|ss| - 1].first] else []
  }

  /** Which of the sections are rides, in order. */
  function Rides(ss: seq<Section>): seq<nat> {
    if ss == [] then []
    else Rides(ss[..|ss| - 1]) + if ss[|ss| - 1].Riding? then [|ss| - 1] else []
  }

  lemma {:induction false} RidesAre(ss: seq<Section>)
    ensures var at, starts := Rides(ss), Starts(ss);
      && |at| == |starts|
      && (forall k :: 0 <= k < |at| ==> at[k] < |ss| && ss[at[k]].Riding? && ss[at[k]].first == starts[k])
      && (forall k, l :: 0 <= k < l < |at| ==> at[k] < at[l])
      && forall i :: 0 <= i < |ss| && ss[i].Riding? ==> i in at
  {
    if ss != [] {
      var n := |ss| - 1;
      RidesAre(ss[..n]);
      var before := Rides(ss[..n]);
      assert forall k :: 0 <= k < |before| ==> ss[before[k]] == ss[..n][before[k]];
      forall i | 0 <= i < |ss| && ss[i].Riding?
        ensures i in Rides(ss)
      {
        if i < n {
          assert ss[..n][i] == ss[i] && i in before;
        }
      }
    }
  }

  lemma {:induction false} StartsAreBoardings(ss: seq<Section>, es: seq<Edge>, b: nat)
    requires b <= |es| && Divides(ss, es, b)
    ensures forall i :: i in Starts(ss) <==> i < b && GetsOn(es, i)
    ensures forall k, l :: 0 <= k < l < |Starts(ss)| ==> Starts(ss)[k] < Starts(ss)[l]
  {
    hide Divides;
    if ss == [] {
      NothingBefore(es, b);
    } else {
      var init, s := ss[..|ss| - 1], ss[|ss| - 1];
      DividesSplit(ss, es, b);
      StartsFromZero(init, es, From(s));
      StartsAreBoardings(init, es, From(s));
      if s.Riding? {
        assert s.first == 0 || es[s.first - 1].kind.TRANSFER? by {
          if init != [] {
            assert init[|init| - 1].Transferring?;
            assert es[From(s) - 1].kind.TRANSFER?;
          }
        }
      }
      assert forall i :: From(s) <= i < b ==> (es[i].kind.RIDE? <==> s.Riding?);
      assert forall k :: 0 <= k < |Starts(init)| ==> Starts(init)[k] in Starts(init);
    }
  }

  lemma StartsFromZero(ss: seq<Section>, es: seq<Edge>, b: int)
    requires Divides(ss, es, b)
    ensures b >= 0
  {
    TilesFromZero(ss, b);
  }

  lemma NothingBefore(es: seq<Edge>, b: int)
    requires Divides([], es, b)
    ensures b == 0
  {
  }

  lemma SummaryAppend(legs: seq<Leg>, l: Leg)
    ensures Summary(legs + [l]) == Summary(legs) + if l.RideLeg? then [l.routeNumber] else []
  {
    assert (legs + [l])[..|legs|] == legs;
  }

  lemma {:induction false} SummaryAfterWalk(first: Leg, legs: seq<Leg>)
    requires first.WalkLeg?
    ensures Summary([first] + legs) == Summary(legs)
  {
    if legs == [] {
      assert [first] + legs == [] + [first];
      SummaryAppend([], first);
    } else {
      var init, l := legs[..|legs| - 1], legs[|legs| - 1];
      SummaryAfterWalk(first, init);
      assert [first] + legs == ([first] + init) + [l] && legs == init + [l];
      SummaryAppend([first] + init, l);
    }
  }

  lemma {:induction false} SummaryOfSections(ss: seq<Section>, nodes: seq<Node>, chain: seq<nat>, es: seq<Edge>)
    requires forall s :: s in ss ==> Fits(s, nodes, chain, es)
    ensures var numbers, starts := Summary(LegsOf(ss, nodes, chain, es)), Starts(ss);
      && |numbers| == |starts|
      && forall k :: 0 <= k < |starts| ==>
           && 0 <= starts[k] < |chain| && chain[starts[k]] < |nodes|
           && numbers[k] == nodes[chain[starts[k]]].route.routeNumber
  {
    hide Fits, LegOf, Summary;
    if ss == [] {
      NoLegs(nodes, chain, es);
    } else {
      var init, s := ss[..|ss| - 1], ss[|ss| - 1];
      assert ss == init + [s] && s in ss;
      SummaryOfSections(init, nodes, chain, es);
      LegsAppend(init, s, nodes, chain, es);
      SummaryAppend(LegsOf(init, nodes, chain, es), LegOf(s, nodes, chain, es));
      LegRoute(s, nodes, chain, es);
    }
  }

  lemma NoLegs(nodes: seq<Node>, chain: seq<nat>, es: seq<Edge>)
    ensures Summary(LegsOf([], nodes, chain, es)) == []
  {
  }

  lemma LegRoute(s: Section, nodes: seq<Node>, chain: seq<nat>, es: seq<Edge>)
    requires Fits(s, nodes, chain, es)
    ensures 0 <= From(s) < |chain| && chain[From(s)] < |nodes|
    ensures var l, route := LegOf(s, nodes, chain, es), nodes[chain[From(s)]].route;
      && (l.RideLeg? <==> s.Riding?)
      && (s.Riding? ==> l.routeNumber == route.routeNumber && l.routeName == route.name && l.routeColor == route.color)
  {
  }

  /** The leg is a ride on the route. */
  predicate RidesOn(l: Leg, route: Route) {
    l.RideLeg? && l.routeNumber == route.routeNumber && l.routeName == route.name && l.routeColor == route.color
  }

  lemma InnerRides(ss: seq<Section>, nodes: seq<Node>, chain: seq<nat>, es: seq<Edge>)
    requires forall s :: s in ss ==> Fits(s, nodes, chain, es)
    ensures var ls, at, starts := LegsOf(ss, nodes, chain, es), Rides(ss), Starts(ss);
      && |at| == |starts|
      && (forall k :: 0 <= k < |at| ==>
            && at[k] < |ls|
            && 0 <= starts[k] < |chain| && chain[starts[k]] < |nodes|
            && RidesOn(ls[at[k]], nodes[chain[starts[k]]].route))
      && forall i :: 0 <= i < |ls| && ls[i].RideLeg? ==> i in at
  {
    hide Fits, LegOf, RidesOn, Rides, Starts;
    RidesAre(ss);
    var ls, at, starts := LegsOf(ss, nodes, chain, es), Rides(ss), Starts(ss);
    forall i | 0 <= i < |ss|
      ensures (ls[i].RideLeg? <==> ss[i].Riding?)
      ensures ss[i].Riding? ==> 0 <= ss[i].first < |chain| && chain[ss[i].first] < |nodes|
                                && RidesOn(ls[i], nodes[chain[ss[i].first]].route)
    {
      assert ss[i] in ss;
      LegRoute(ss[i], nodes, chain, es);
      if ss[i].Riding? {
        OnThatRoute(ss[i], nodes, chain, es);
      }
    }
  }

  lemma OnThatRoute(s: Section, nodes: seq<Node>, chain: seq<nat>, es: seq<Edge>)
    requires Fits(s, nodes, chain, es) && s.Riding?
    ensures RidesOn(LegOf(s, nodes, chain, es), nodes[chain[From(s)]].route)
  {
  }

  /** Positions in a sequence, moved on by the element put before it. */
  function Shifted(at: seq<nat>): (shifted: seq<nat>)
    ensures |shifted| == |at| && forall k :: 0 <= k < |at| ==> shifted[k] == at[k] + 1
  {
    seq(|at|, k requires 0 <= k < |at| => at[k] + 1)
  }

  lemma OuterRides(first: Leg, ls: seq<Leg>, last: Leg, at: seq<nat>)
    requires first.WalkLeg? && last.WalkLeg? && forall i :: 0 <= i < |ls| && ls[i].RideLeg? ==> i in at
    requires forall k :: 0 <= k < |at| ==> at[k] < |ls|
    ensures var legs := [first] + ls + [last];
      && (forall k :: 0 <= k < |at| ==> legs[Shifted(at)[k]] == ls[at[k]])
      && forall i :: 0 <= i < |legs| && legs[i].RideLeg? ==> i in Shifted(at)
  {
    var legs, shifted := [first] + ls + [last], Shifted(at);
    forall i | 0 <= i < |legs| && legs[i].RideLeg?
      ensures i in shifted
    {
      assert 0 < i <= |ls| && ls[i - 1] == legs[i];
      var k :| 0 <= k < |at| && at[k] == i - 1;
      assert shifted[k] == i;
    }
  }

  /**
   * The summary names one route for every time the rider gets on, in travel order: that of the station where they do.
   * So do the ride legs, each with that route's number, name and colour.
   */
  lemma SummaryNamesTheRides(d: Distance, g: Graph, from: Point, to: Point, t: Trip, r: Response)
    returns (boardings: seq<int>, rides: seq<nat>)
    requires Describes(d, g, from, to, t, r)
    ensures forall i :: i in boardings <==> GetsOn(Hops(t), i)
    ensures forall k, l :: 0 <= k < l < |boardings| ==> boardings[k] < boardings[l]
    ensures forall k, l :: 0 <= k < l < |rides| ==> rides[k] < rides[l]
    ensures forall i :: 0 <= i < |r.legs| && r.legs[i].RideLeg? ==> i in rides
    ensures |r.summary| == |boardings| == |rides|
    ensures forall k :: 0 <= k < |boardings| ==>
              && 0 <= boardings[k] < |Stations(t)| && Stations(t)[boardings[k]] < |g.nodes|
              && rides[k] < |r.legs|
              && RidesOn(r.legs[rides[k]], g.nodes[Stations(t)[boardings[k]]].route)
              && r.summary[k] == g.nodes[Stations(t)[boardings[k]]].route.routeNumber
  {
    hide Recovered, Sections, Fits, LegOf, LegsOf, SectionsKm, TransferHops, Transfers, Summary, Divides, RidesOn;
    hide Round1, Round2, Minutes, Kilometres, WalkMinutes, DoorMinutes, GetsOn;
    var chain, es := Stations(t), Hops(t);
    var ss := Sections(es);
    SectionsAre(es);
    StartsAreBoardings(ss, es, |es|);
    OnlyHops(es);
    RidesAre(ss);
    SummaryOfSections(ss, g.nodes, chain, es);
    InnerRides(ss, g.nodes, chain, es);
    var ls, first, last := LegsOf(ss, g.nodes, chain, es), r.legs[0], r.legs[|r.legs| - 1];
    assert r.legs == [first] + ls + [last];
    SummaryAppend([first] + ls, last);
    SummaryAfterWalk(first, ls);
    OuterRides(first, ls, last, Rides(ss));
    boardings, rides := Starts(ss), Shifted(Rides(ss));
  }

  lemma OnlyHops(es: seq<Edge>)
    ensures forall i :: GetsOn(es, i) ==> i < |es|
  {
  }

  lemma SectionsAre(es: seq<Edge>)
    ensures Divides(Sections(es), es, |es|)
  {
    SectionsDivide(es, |es|);
  }

  // ---- The legs ------------------------------------------------------------------------

  /** A ride leg tells of its hops: how many, how far, how long, the wait, and where the line runs. */
  lemma RideLegSpelledOut(d: Distance, g: Graph, chain: seq<nat>, es: seq<Edge>, a: nat, b: nat)
    requires Recovered(d, g, chain, es) && a < b <= |es|
    requires Fits(Riding(a, b), g.nodes, chain, es)
    ensures chain[a] < |g.nodes| && chain[b] < |g.nodes|
    ensures var l, on, off := LegOf(Riding(a, b), g.nodes, chain, es), g.nodes[chain[a]], g.nodes[chain[b]];
      && l.RideLeg? && l.fromName == on.stop.name && l.toName == off.stop.name && l.stopCount == b - a
      && l.waitMinutes == on.route.frequencyMinutes as real / 2.0
      && l.distanceKm == Round2(Kilometres(es, a, b)) && l.durationMinutes == Round1(Minutes(es, a, b))
      && on.route == off.route
      && (|on.route.path| < 2 ==> l.geometry == [on.stop.at, off.stop.at])
      && OnPath(on) && OnPath(off)
      && (|on.route.path| >= 2 ==>
            && |l.geometry| >= 2
            && l.geometry[0] == Polyline.PointOf(on.onPath, on.route.path)
            && l.geometry[|l.geometry| - 1] == Polyline.PointOf(off.onPath, on.route.path))
  {
    hide Recovered, Minutes, Kilometres;
    HalfHeadwayIsExact(g.nodes[chain[a]].route.frequencyMinutes);
  }

  /** A walk between two stops tells of its hop, and is drawn as a straight line. */
  lemma WalkLegSpelledOut(nodes: seq<Node>, chain: seq<nat>, es: seq<Edge>, i: nat)
    requires 0 < i <= |es| && Fits(Transferring(i), nodes, chain, es)
    ensures chain[i - 1] < |nodes| && chain[i] < |nodes|
    ensures var l, a, b := LegOf(Transferring(i), nodes, chain, es), nodes[chain[i - 1]].stop, nodes[chain[i]].stop;
      IsWalk(l, a.name, b.name, es[i - 1].km, [a.at, b.at])
  {
    WalkFigures(nodes[chain[i - 1]].stop.name, nodes[chain[i]].stop.name, es[i - 1].km,
                [nodes[chain[i - 1]].stop.at, nodes[chain[i]].stop.at]);
  }

  ghost predicate IsWalk(l: Leg, fromName: string, toName: string, km: real, geometry: seq<Point>) {
    && l.WalkLeg? && l.fromName == fromName && l.toName == toName && l.geometry == geometry
    && l.distanceKm == Round2(km) && l.durationMinutes == Round1(40.0 / 3.0 * km)
  }

  lemma WalkFigures(fromName: string, toName: string, km: real, geometry: seq<Point>)
    ensures IsWalk(WalkOf(fromName, toName, km, geometry), fromName, toName, km, geometry)
  {
    assert WalkMinutes(km) == 40.0 / 3.0 * km;
  }

  /** The first and the last leg are the street walks from the origin and to the destination. */
  lemma OuterLegsSpelledOut(d: Distance, g: Graph, from: Point, to: Point, t: Trip, r: Response)
    requires Describes(d, g, from, to, t, r)
    ensures Stations(t)[0] < |g.nodes| && End(t) < |g.nodes| && |r.legs| >= 2
    ensures var board, alight := g.nodes[Stations(t)[0]].stop, g.nodes[End(t)].stop;
      && IsWalk(r.legs[0], "Your location", board.name, 1.25 * d(from, board.at), [from, board.at])
      && IsWalk(r.legs[|r.legs| - 1], alight.name, "Destination", 1.25 * d(to, alight.at), [alight.at, to])
  {
    hide Recovered, Sections, Fits, LegOf, LegsOf, SectionsKm, TransferHops, Transfers, Summary, IsWalk;
    hide Round1, Round2, Minutes, Kilometres, WalkMinutes, Cost;
    StationsInRange(d, g, Stations(t), Hops(t));
    var board, alight := g.nodes[Stations(t)[0]].stop, g.nodes[End(t)].stop;
    WalkFigures("Your location", board.name, 1.25 * d(from, board.at), [from, board.at]);
    WalkFigures(alight.name, "Destination", 1.25 * d(to, alight.at), [alight.at, to]);
  }

  /** Rides count as printed, transfers as their hop does. */
  ghost predicate Counts(s: Section, es: seq<Edge>, km: real) {
    && 0 <= From(s) < To(s) <= |es|
    && km == if s.Riding? then Round2(Kilometres(es, s.first, s.last)) else es[s.hop - 1].km
  }

  function Sum(xs: seq<real>): real {
    if xs == [] then 0.0 else xs[0] + Sum(xs[1..])
  }

  lemma {:induction false} SumAppend(xs: seq<real>, x: real)
    ensures Sum(xs + [x]) == Sum(xs) + x
  {
    if xs == [] {
      assert xs + [x] == [x] && [x][1..] == [];
    } else {
      SumAppend(xs[1..], x);
      assert (xs + [x])[1..] == xs[1..] + [x];
    }
  }

  lemma {:induction false} SectionsSum(ss: seq<Section>, es: seq<Edge>) returns (kms: seq<real>)
    requires InRange(ss, es)
    ensures |kms| == |ss| && (forall i :: 0 <= i < |ss| ==> Counts(ss[i], es, kms[i]))
    ensures SectionsKm(ss, es) == Sum(kms)
  {
    hide Counts;
    if ss == [] {
      kms := [];
    } else {
      var init, s := ss[..|ss| - 1], ss[|ss| - 1];
      assert s in ss && ss == init + [s];
      var before := SectionsSum(init, es);
      CountsAsItself(s, es);
      SumAppend(before, SectionKm(s, es));
      kms := before + [SectionKm(s, es)];
    }
  }

  lemma CountsAsItself(s: Section, es: seq<Edge>)
    requires 0 <= From(s) < To(s) <= |es|
    ensures Counts(s, es, SectionKm(s, es))
  {
  }

  /** The totals: the time of the trip, and the kilometres of both street walks, every ride and every transfer. */
  lemma TotalsSpelledOut(d: Distance, g: Graph, from: Point, to: Point, t: Trip, r: Response) returns (kms: seq<real>)
    requires Describes(d, g, from, to, t, r)
    ensures Stations(t)[0] < |g.nodes| && End(t) < |g.nodes|
    ensures r.totalMinutes == Round1(DoorMinutes(d, g, to, t))
    ensures var ss, es := Sections(Hops(t)), Hops(t);
      && |kms| == |ss| && (forall i :: 0 <= i < |ss| ==> Counts(ss[i], es, kms[i]))
      && r.totalKm == Round2(1.25 * d(from, g.nodes[Stations(t)[0]].stop.at) + Sum(kms)
                             + 1.25 * d(to, g.nodes[End(t)].stop.at))
  {
    hide Recovered, Sections, Fits, LegOf, LegsOf, SectionsKm, TransferHops, Transfers, Summary, Counts, Sum;
    hide Round1, Round2, Minutes, Kilometres, WalkMinutes, Cost, DoorMinutes;
    StationsInRange(d, g, Stations(t), Hops(t));
    kms := SectionsSum(Sections(Hops(t)), Hops(t));
  }
}
