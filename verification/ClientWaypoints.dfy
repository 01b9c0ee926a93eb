/** The browser redraws a ride leg through the route's stops, found again by their names. */
module ClientWaypoints {
  import opened Geo
  import opened Network
  import opened Itinerary
  import opened Journey

  /** Position of the first stop with that name, or the number of stops. */
  function IndexOf(stops: seq<Stop>, name: string): (i: nat)
    ensures i <= |stops|
    ensures forall j :: 0 <= j < i ==> stops[j].name != name
    ensures i < |stops| ==> stops[i].name == name
  {
    if stops == [] then 0 else if stops[0].name == name then 0 else 1 + IndexOf(stops[1..], name)
  }

  function Apart(i: int, j: int): nat {
    if i <= j then j - i else i - j
  }

  /** `k` stops on from `i` in the direction of `j`. */
  function Toward(i: int, j: int, k: int): int {
    if i <= j then i + k else i - k
  }

  /** The stops from `i` to `j`, in either direction. */
  function Between(stops: seq<Stop>, i: nat, j: nat): (pts: seq<Point>)
    requires i < |stops| && j < |stops|
    ensures |pts| == Apart(i, j) + 1 && pts[0] == stops[i].at && pts[|pts| - 1] == stops[j].at
  {
    seq(Apart(i, j) + 1, k requires 0 <= k <= Apart(i, j) => stops[Toward(i, j, k)].at)
  }

  /** The line drawn for a ride; `busRoutes` holds the stops of each route by route number. */
  function Drawn(busRoutes: map<int, seq<Stop>>, leg: Leg): seq<Point>
    requires leg.RideLeg?
  {
    if leg.routeNumber !in busRoutes then leg.geometry
    else
      var stops := busRoutes[leg.routeNumber];
      var i, j := IndexOf(stops, leg.fromName), IndexOf(stops, leg.toName);
      if i == |stops| || j == |stops| || i == j then leg.geometry else Between(stops, i, j)
  }

  method RideLegWaypoints(busRoutes: map<int, seq<Stop>>, leg: Leg) returns (pts: seq<Point>)
    requires leg.RideLeg?
    ensures pts == Drawn(busRoutes, leg)
  {
    if leg.routeNumber !in busRoutes {
      return leg.geometry;
    }
    var stops := busRoutes[leg.routeNumber];
    var i, j := IndexOf(stops, leg.fromName), IndexOf(stops, leg.toName);
    if i == |stops| || j == |stops| {
      return leg.geometry;
    }
    var step: int := if i <= j then 1 else -1;
    pts := [];
    var k: int := i;
    while k != j + step
      invariant if i <= j then i <= k <= j + 1 else j - 1 <= k <= i
      invariant |pts| == Apart(i, k) && k == Toward(i, j, |pts|)
      invariant forall n :: 0 <= n < |pts| ==> pts[n] == stops[Toward(i, j, n)].at
      decreases if i <= j then j + 1 - k else k + 1 - j
    {
      pts := pts + [stops[k].at];
      k := k + step;
    }
    if |pts| < 2 {
      pts := leg.geometry;
    } else {
      assert pts == Between(stops, i, j);
    }
  }

  // ---- Agreement with the server's chain -----------------------------------------

  /** The coordinates of the stations from `a` to `b`, as the server travelled them. */
  function Travelled(nodes: seq<Node>, chain: seq<nat>, a: nat, b: nat): (pts: seq<Point>)
    requires a <= b < |chain| && forall i :: 0 <= i < |chain| ==> chain[i] < |nodes|
    ensures |pts| == b - a + 1
  {
    seq(b - a + 1, k requires 0 <= k <= b - a => nodes[chain[a + k]].stop.at)
  }

  ghost predicate FirstNamed(stops: seq<Stop>, i: nat)
    requires i < |stops|
  {
    IndexOf(stops, stops[i].name) == i
  }

  /**
   * A ride never doubles back: it moves one stop per hop, always the same way, so the stop count shown on its leg
   * is the difference of its stop indices, and its stations are the stops between them.
   */
  lemma RideRunsStraight(d: Distance, nodes: seq<Node>, chain: seq<nat>, es: seq<Edge>, a: nat, b: nat)
    requires LaidOut(nodes) && IsChain(d, nodes, chain, es)
    requires a < b <= |es| && Pure(Riding(a, b), es) && Fits(Riding(a, b), nodes, chain, es)
    ensures var i, j := StopAt(nodes, chain, a), StopAt(nodes, chain, b);
      var stops := nodes[chain[a]].route.stops;
      && 0 <= i < |stops| && 0 <= j < |stops| && i != j
      && LegOf(Riding(a, b), nodes, chain, es).stopCount == Apart(i, j)
      && Travelled(nodes, chain, a, b) == Between(stops, i, j)
  {
    hide IsEdge, LegOf, LaidOut;
    var step := RideIsStraight(d, nodes, chain, es, a, b);
    var stops := nodes[chain[a]].route.stops;
    StopCountOf(nodes, chain, es, a, b);
    StopOf(nodes, chain[a]);
    StopOf(nodes, chain[b]);
    assert InLine(nodes, chain, a, b, step);
    var i, j := StopAt(nodes, chain, a), StopAt(nodes, chain, b);
    var travelled, between := Travelled(nodes, chain, a, b), Between(stops, i, j);
    forall k | 0 <= k < |travelled|
      ensures travelled[k] == between[k]
    {
      assert InLine(nodes, chain, a, a + k, step);
      StopOf(nodes, chain[a + k]);
    }
  }

  lemma StopOf(nodes: seq<Node>, v: nat)
    requires LaidOut(nodes) && v < |nodes|
    ensures nodes[v].stopIndex < |nodes[v].route.stops| && nodes[v].stop == nodes[v].route.stops[nodes[v].stopIndex]
  {
    PlaceOf(nodes, v);
  }

  lemma StopCountOf(nodes: seq<Node>, chain: seq<nat>, es: seq<Edge>, a: nat, b: nat)
    requires Fits(Riding(a, b), nodes, chain, es)
    ensures LegOf(Riding(a, b), nodes, chain, es).stopCount == b - a
  {
  }

  /** No other stop of that name stands in the same place. */
  ghost predicate StandsAlone(stops: seq<Stop>, i: nat)
    requires i < |stops|
  {
    forall x :: 0 <= x < |stops| && x != i && stops[x].name == stops[i].name ==> stops[x].at != stops[i].at
  }

  /**
   * Between two stops of different names the browser draws the stations travelled if neither shares its name with
   * an earlier stop of the route, and only then unless such a stop stands in the same place. Between two stops of
   * one name it draws the server's line, whatever that is.
   */
  lemma ClientAgrees(d: Distance, nodes: seq<Node>, chain: seq<nat>, es: seq<Edge>, a: nat, b: nat,
                     busRoutes: map<int, seq<Stop>>)
    requires LaidOut(nodes) && IsChain(d, nodes, chain, es)
    requires a < b <= |es| && Pure(Riding(a, b), es) && Fits(Riding(a, b), nodes, chain, es)
    requires var r := nodes[chain[a]].route; r.routeNumber in busRoutes && busRoutes[r.routeNumber] == r.stops
    ensures var leg, stops := LegOf(Riding(a, b), nodes, chain, es), nodes[chain[a]].route.stops;
      var i, j := StopAt(nodes, chain, a), StopAt(nodes, chain, b);
      var drawn, ridden := Drawn(busRoutes, leg), Travelled(nodes, chain, a, b);
      && 0 <= i < |stops| && 0 <= j < |stops|
      && (stops[i].name == stops[j].name ==> drawn == leg.geometry)
      && (FirstNamed(stops, i) && FirstNamed(stops, j) ==> drawn == ridden)
      && (StandsAlone(stops, i) && StandsAlone(stops, j) ==>
            (drawn == ridden <==>
              if stops[i].name == stops[j].name then leg.geometry == ridden
              else FirstNamed(stops, i) && FirstNamed(stops, j)))
  {
    hide IsEdge, LegOf, LaidOut, Between, Travelled, Fits, IsChain, RideGeometry;
    StationsExist(d, nodes, chain, es);
    RideRunsStraight(d, nodes, chain, es, a, b);
    NamesOf(d, nodes, chain, es, a, b);
    var leg, stops := LegOf(Riding(a, b), nodes, chain, es), nodes[chain[a]].route.stops;
    var i, j := StopAt(nodes, chain, a), StopAt(nodes, chain, b);
    var p, q := IndexOf(stops, leg.fromName), IndexOf(stops, leg.toName);
    var drawn, ridden := Between(stops, p, q), Between(stops, i, j);
    assert stops[p].at == drawn[0] && ridden[0] == stops[i].at;
    assert stops[q].at == drawn[|drawn| - 1] && ridden[|ridden| - 1] == stops[j].at;
    assert p == q <==> stops[i].name == stops[j].name;
  }

  // ---- Lines that come back to their first stop -------------------------------------

  /** The last stop is the first one again; otherwise no two stops share a name or a place. */
  ghost predicate Circular(stops: seq<Stop>) {
    var n := |stops| - 1;
    && n >= 1 && stops[n] == stops[0]
    && forall x, y :: 0 <= x < y < n ==> stops[x].name != stops[y].name && stops[x].at != stops[y].at
  }

  /** Where a stop of a circular line is found by its name. */
  function Found(stops: seq<Stop>, i: nat): nat {
    if i == |stops| - 1 then 0 else i
  }

  lemma FoundByName(stops: seq<Stop>, i: nat)
    requires Circular(stops) && i < |stops|
    ensures IndexOf(stops, stops[i].name) == Found(stops, i)
  {
    var k := IndexOf(stops, stops[i].name);
    assert k < |stops| - 1;
  }

  lemma CircleLines(stops: seq<Stop>, i: nat, j: nat)
    requires Circular(stops) && i < |stops| && j < |stops| && Found(stops, i) != Found(stops, j)
    ensures Between(stops, Found(stops, i), Found(stops, j)) == Between(stops, i, j) <==>
            (i < |stops| - 1 && j < |stops| - 1) || |stops| == 3
  {
    var n := |stops| - 1;
    var drawn, ridden := Between(stops, Found(stops, i), Found(stops, j)), Between(stops, i, j);
    if i == n || j == n {
      assert drawn[1] == stops[Toward(Found(stops, i), Found(stops, j), 1)].at;
      assert ridden[1] == stops[Toward(i, j, 1)].at;
    }
  }

  /**
   * On a circular line a ride to or from the last stop is drawn the other way round the circle, unless there are but
   * three stops on the list. Rides elsewhere are drawn as travelled, and one all the way round as the server says.
   */
  lemma ClientOnCircle(d: Distance, nodes: seq<Node>, chain: seq<nat>, es: seq<Edge>, a: nat, b: nat,
                       busRoutes: map<int, seq<Stop>>)
    requires LaidOut(nodes) && IsChain(d, nodes, chain, es)
    requires a < b <= |es| && Pure(Riding(a, b), es) && Fits(Riding(a, b), nodes, chain, es)
    requires var r := nodes[chain[a]].route;
      r.routeNumber in busRoutes && busRoutes[r.routeNumber] == r.stops && Circular(r.stops)
    ensures var leg, n := LegOf(Riding(a, b), nodes, chain, es), |nodes[chain[a]].route.stops| - 1;
      var i, j := StopAt(nodes, chain, a), StopAt(nodes, chain, b);
      var drawn, ridden := Drawn(busRoutes, leg), Travelled(nodes, chain, a, b);
      drawn == ridden <==>
        if {i, j} == {0, n} then leg.geometry == ridden else (i < n && j < n) || n == 2
  {
    hide IsEdge, LegOf, LaidOut, Between, Travelled, Fits, IsChain, RideGeometry, Circular, IndexOf;
    StationsExist(d, nodes, chain, es);
    RideRunsStraight(d, nodes, chain, es, a, b);
    NamesOf(d, nodes, chain, es, a, b);
    var stops := nodes[chain[a]].route.stops;
    var i, j := StopAt(nodes, chain, a), StopAt(nodes, chain, b);
    FoundByName(stops, i);
    FoundByName(stops, j);
    if Found(stops, i) != Found(stops, j) {
      CircleLines(stops, i, j);
    }
    assert {i, j} == {0, |stops| - 1} <==> Found(stops, i) == Found(stops, j);
  }

  lemma StationsExist(d: Distance, nodes: seq<Node>, chain: seq<nat>, es: seq<Edge>)
    requires IsChain(d, nodes, chain, es)
    ensures |chain| == |es| + 1 && forall i :: 0 <= i < |chain| ==> chain[i] < |nodes|
  {
  }

  lemma NamesOf(d: Distance, nodes: seq<Node>, chain: seq<nat>, es: seq<Edge>, a: nat, b: nat)
    requires LaidOut(nodes) && Fits(Riding(a, b), nodes, chain, es)
    ensures var leg, stops := LegOf(Riding(a, b), nodes, chain, es), nodes[chain[a]].route.stops;
      var i, j := StopAt(nodes, chain, a), StopAt(nodes, chain, b);
      && 0 <= i < |stops| && 0 <= j < |stops|
      && leg.RideLeg? && leg.routeNumber == nodes[chain[a]].route.routeNumber
      && leg.fromName == stops[i].name && leg.toName == stops[j].name
      && IndexOf(stops, leg.fromName) <= i && IndexOf(stops, leg.toName) <= j
  {
    PlaceOf(nodes, chain[a]);
    PlaceOf(nodes, chain[b]);
  }
}
