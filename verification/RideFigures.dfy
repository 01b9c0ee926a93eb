/** The figures printed on the legs: kilometres that add up, and rides as long and as slow as they should be. */
module RideFigures {
  import opened Geo
  import Polyline
  import opened Network
  import opened ShortestPath
  import opened Itinerary
  import opened Journey
  import opened Planner
  import opened PlannerGuarantees

  // ---- One ride ------------------------------------------------------------------

  /** A ride takes three minutes a kilometre and a dwell at every stop reached. */
  lemma {:induction false} RidePace(d: Distance, nodes: seq<Node>, chain: seq<nat>, es: seq<Edge>, a: nat, b: nat)
    requires IsChain(d, nodes, chain, es)
    requires a <= b <= |es| && forall h :: a <= h < b ==> es[h].kind.RIDE?
    ensures Minutes(es, a, b) == 3.0 * Kilometres(es, a, b) + 0.4 * (b - a) as real
  {
    hide RideKm;
    if a < b {
      RidePace(d, nodes, chain, es, a, b - 1);
      assert IsEdge(d, nodes, chain[b - 1], es[b - 1]);
    }
  }

  function CumAt(nodes: seq<Node>, chain: seq<nat>, i: nat): real
    requires i < |chain| && chain[i] < |nodes|
  {
    nodes[chain[i]].onPath.cumKm
  }

  /** How far hop `h` leads along the path, counted in the direction of the route. */
  function Advance(nodes: seq<Node>, chain: seq<nat>, step: int, h: nat): real
    requires h + 1 < |chain| && chain[h] < |nodes| && chain[h + 1] < |nodes|
  {
    if step == 1 then CumAt(nodes, chain, h + 1) - CumAt(nodes, chain, h)
    else CumAt(nodes, chain, h) - CumAt(nodes, chain, h + 1)
  }

  /** What a hop is counted beyond that: nothing, unless its stops hardly advance along the path. */
  function Surplus(d: Distance, nodes: seq<Node>, chain: seq<nat>, step: int, h: nat): real
    requires h + 1 < |chain| && chain[h] < |nodes| && chain[h + 1] < |nodes|
  {
    var km := Advance(nodes, chain, step, h);
    if km > 0.001 then 0.0 else d(nodes[chain[h]].stop.at, nodes[chain[h + 1]].stop.at) * INDIRECTNESS - km
  }

  /** The surplus of the hops from station `a` to station `b`. */
  function Detour(d: Distance, nodes: seq<Node>, chain: seq<nat>, step: int, a: nat, b: nat): real
    requires a <= b < |chain| && forall i :: 0 <= i < |chain| ==> chain[i] < |nodes|
    decreases b
  {
    if a == b then 0.0 else Detour(d, nodes, chain, step, a, b - 1) + Surplus(d, nodes, chain, step, b - 1)
  }

  lemma HopKm(d: Distance, nodes: seq<Node>, chain: seq<nat>, es: seq<Edge>, a: nat, b: nat, step: int, h: nat)
    requires LaidOut(nodes) && IsChain(d, nodes, chain, es) && Straight(nodes, chain, a, b, step)
    requires a <= h < b <= |es| && es[h].kind.RIDE?
    ensures es[h].km == Advance(nodes, chain, step, h) + Surplus(d, nodes, chain, step, h)
  {
    var u, v := chain[h], chain[h + 1];
    assert InLine(nodes, chain, a, h, step) && InLine(nodes, chain, a, h + 1, step);
    assert SameRoute(nodes[u], nodes[v]);
    assert IsEdge(d, nodes, u, es[h]);
    if step == 1 {
      assert v == u + 1;
    } else {
      assert u == v + 1;
    }
  }

  /** The kilometres of a ride are the stretch of the path between its ends, and the surplus of its hops. */
  lemma {:induction false} RideTelescopes(d: Distance, nodes: seq<Node>, chain: seq<nat>, es: seq<Edge>, a: nat, b: nat,
                                          step: int)
    requires LaidOut(nodes) && IsChain(d, nodes, chain, es) && Straight(nodes, chain, a, b, step)
    requires b <= |es| && (forall h :: a <= h < b ==> es[h].kind.RIDE?)
    ensures Kilometres(es, a, b) == Detour(d, nodes, chain, step, a, b) +
            if step == 1 then CumAt(nodes, chain, b) - CumAt(nodes, chain, a)
            else CumAt(nodes, chain, a) - CumAt(nodes, chain, b)
    decreases b
  {
    hide LaidOut, IsEdge, InLine, Surplus;
    if a < b {
      assert Straight(nodes, chain, a, b - 1, step);
      RideTelescopes(d, nodes, chain, es, a, b - 1, step);
      HopKm(d, nodes, chain, es, a, b, step, b - 1);
    }
  }

  /** Every hop of the ride leads more than a metre along the path. */
  ghost predicate StopsAdvance(nodes: seq<Node>, chain: seq<nat>, step: int, a: nat, b: nat)
    requires b < |chain| && forall i :: 0 <= i < |chain| ==> chain[i] < |nodes|
  {
    forall h: nat :: a <= h < b ==> Advance(nodes, chain, step, h) > 0.001
  }

  lemma {:induction false} NoDetour(d: Distance, nodes: seq<Node>, chain: seq<nat>, step: int, a: nat, b: nat)
    requires a <= b < |chain| && (forall i :: 0 <= i < |chain| ==> chain[i] < |nodes|)
    requires StopsAdvance(nodes, chain, step, a, b)
    ensures Detour(d, nodes, chain, step, a, b) == 0.0
    ensures if step == 1 then CumAt(nodes, chain, a) <= CumAt(nodes, chain, b)
            else CumAt(nodes, chain, b) <= CumAt(nodes, chain, a)
    decreases b
  {
    if a < b {
      NoDetour(d, nodes, chain, step, a, b - 1);
      assert Advance(nodes, chain, step, b - 1) > 0.001;
    }
  }

  /**
   * The distance of a ride is the length of the line drawn for it if and only if the detours of its hops come to
   * nothing or, where the later stop lies further back on the path, to twice the stretch between them. They come to
   * nothing where every hop leads along the path; the leg then prints the length of its line to two decimals.
   */
  lemma LineIsAsLongAsPrinted(d: Distance, g: Graph, chain: seq<nat>, es: seq<Edge>, a: nat, b: nat)
    returns (step: int)
    requires Recovered(d, g, chain, es) && a < b <= |es|
    requires Pure(Riding(a, b), es) && Fits(Riding(a, b), g.nodes, chain, es)
    requires var path := g.nodes[chain[a]].route.path;
      |path| >= 2 && Polyline.LinearAlong(d, path) && Polyline.NoRepeatedNeighbours(d, path)
    ensures Straight(g.nodes, chain, a, b, step)
    ensures var leg, detour := LegOf(Riding(a, b), g.nodes, chain, es), Detour(d, g.nodes, chain, step, a, b);
      var line := Polyline.Length(d, leg.geometry);
      var onward := (CumAt(g.nodes, chain, a) <= CumAt(g.nodes, chain, b)) == (step == 1);
      && leg.distanceKm == Round2(Kilometres(es, a, b))
      && (Kilometres(es, a, b) == line <==> detour == if onward || line == 0.0 then 0.0 else 2.0 * line)
      && (StopsAdvance(g.nodes, chain, step, a, b) ==> detour == 0.0 && leg.distanceKm == Round2(line))
  {
    hide LaidOut, IsEdge, StopsAdvance, InLine, EdgesOf, Changes, RideGeometry, Round1, Round2, Detour;
    hide Polyline.Projected, Polyline.LinearAlong, Polyline.NoRepeatedNeighbours, Polyline.Length;
    step := RideIsStraight(d, g.nodes, chain, es, a, b);
    RideTelescopes(d, g.nodes, chain, es, a, b, step);
    RideGeometryFits(d, g.nodes[chain[a]], g.nodes[chain[b]]);
    if StopsAdvance(g.nodes, chain, step, a, b) {
      NoDetour(d, g.nodes, chain, step, a, b);
    }
  }

  // ---- All legs --------------------------------------------------------------------

  function PrintedKm(legs: seq<Leg>): real {
    if legs == [] then 0.0 else PrintedKm(legs[..|legs| - 1]) + legs[|legs| - 1].distanceKm
  }

  lemma PrintedKmAppend(ls: seq<Leg>, l: Leg)
    ensures PrintedKm(ls + [l]) == PrintedKm(ls) + l.distanceKm
  {
    assert (ls + [l])[..|ls|] == ls;
  }

  lemma {:induction false} PrintedKmAfter(first: Leg, ls: seq<Leg>)
    ensures PrintedKm([first] + ls) == first.distanceKm + PrintedKm(ls)
  {
    if ls == [] {
      assert [first] + ls == [first];
    } else {
      var n := |ls| - 1;
      PrintedKmAfter(first, ls[..n]);
      assert ([first] + ls)[..n + 1] == [first] + ls[..n];
    }
  }

  lemma LegKm(s: Section, nodes: seq<Node>, chain: seq<nat>, es: seq<Edge>)
    requires Fits(s, nodes, chain, es)
    ensures var km, printed := SectionKm(s, es), LegOf(s, nodes, chain, es).distanceKm;
      if s.Riding? then printed == km else km - 0.005 < printed <= km + 0.005
  {
  }

  /** Rides count as printed, so only walks are off, each by half a hundredth at most. */
  lemma {:induction false} PrintedSections(ss: seq<Section>, nodes: seq<Node>, chain: seq<nat>, es: seq<Edge>)
    requires (forall s :: s in ss ==> Fits(s, nodes, chain, es)) && InRange(ss, es)
    ensures var exact, slack := SectionsKm(ss, es), 0.005 * Transfers(ss) as real;
      exact - slack <= PrintedKm(LegsOf(ss, nodes, chain, es)) <= exact + slack
  {
    if ss != [] {
      hide Fits, LegOf, SectionKm, SectionsKm, PrintedKm, LegsOf, Transfers;
      var n := |ss| - 1;
      var init, s := ss[..n], ss[n];
      assert ss == init + [s] && s in ss;
      PrintedSections(init, nodes, chain, es);
      LegKm(s, nodes, chain, es);
      LegsAppend(init, s, nodes, chain, es);
      KmAppend(init, s, es);
      TransfersAppend(init, s);
      PrintedKmAppend(LegsOf(init, nodes, chain, es), LegOf(s, nodes, chain, es));
    }
  }

  /** The printed total is the sum of the printed legs, up to half a hundredth for every walk and the total itself. */
  lemma PrintedKilometresAddUp(d: Distance, g: Graph, from: Point, to: Point, t: Trip, r: Response)
    requires Describes(d, g, from, to, t, r)
    ensures var slack := 0.005 * (r.transfers + 3) as real;
      PrintedKm(r.legs) - slack <= r.totalKm <= PrintedKm(r.legs) + slack
  {
    hide Recovered, Fits, LegOf, SectionsKm, PrintedKm, LegsOf, Transfers, Sections, TransferHops, DoorMinutes;
    hide WalkMinutes, Summary, Round1;
    var es := Hops(t);
    var ss := Sections(es);
    SectionsEnd(es);
    PrintedSections(ss, g.nodes, Stations(t), es);
    var ls, n := LegsOf(ss, g.nodes, Stations(t), es), |r.legs| - 1;
    assert r.legs == ([r.legs[0]] + ls) + [r.legs[n]];
    PrintedKmAppend([r.legs[0]] + ls, r.legs[n]);
    PrintedKmAfter(r.legs[0], ls);
  }
}
