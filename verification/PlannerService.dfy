/** The planner as the server keeps it: the stored routes, the cached graph, and the query. */
module PlannerService {
  import opened Geo
  import opened Options
  import opened Network
  import opened ShortestPath
  import opened Journey
  import opened Itinerary
  import opened Planner
  import opened ShortWalks

  function WalkOnly(from: Point, to: Point, km: real): Response {
    Response(Round1(WalkMinutes(km)), Round2(km), 0, [], [WalkOf("Your location", "Destination", km, [from, to])])
  }

  /** A walk from door to door and nothing else, with the figures of so many kilometres at 4.5 km/h. */
  ghost predicate IsPlainWalk(j: Response, from: Point, to: Point, km: real) {
    && |j.legs| == 1 && j.legs[0] == WalkLeg("Your location", "Destination", j.totalKm, j.totalMinutes, [from, to])
    && j.totalMinutes == Round1(40.0 / 3.0 * km)
    && 40.0 / 3.0 * km - 0.05 < j.totalMinutes <= 40.0 / 3.0 * km + 0.05
    && j.totalKm == Round2(km) && km - 0.005 < j.totalKm <= km + 0.005
    && j.transfers == 0 && j.summary == []
  }

  /** A plan with a ride, whose total is the time of a fastest trip. */
  ghost predicate IsRidePlan(d: Distance, g: Graph, from: Point, to: Point, j: Response) {
    && (exists l :: l in j.legs && l.RideLeg?)
    && exists t :: Fastest(d, g, from, to, t) && RidesBus(t) && Describes(d, g, from, to, t, j)
                   && j.totalMinutes == Round1(DoorMinutes(d, g, to, t))
  }

  /** Whether the network offers a plan with a ride, `best` being the fastest way through it. */
  predicate HasTransit(best: Option<Trip>) {
    best.Some? && RidesBus(best.value)
  }

  class JourneyPlanner {
    const distance: Distance
    var routes: seq<Route>
    var graphRef: Option<Graph>

    /** A cached graph is the graph of the routes now stored. */
    ghost predicate Valid()
      reads this
    {
      IsNetwork(routes) && (graphRef.Some? ==> graphRef.value == GraphOf(distance, routes))
    }

    constructor (distance: Distance, routes: seq<Route>)
      requires IsNetwork(routes)
      ensures Valid() && this.distance == distance && this.routes == routes && graphRef == None
    {
      this.distance, this.routes, graphRef := distance, routes, None;
    }

    /** An edit of the routes, together with the event that drops the graph. */
    method ChangeRoutes(newRoutes: seq<Route>)
      requires Valid() && IsNetwork(newRoutes)
      modifies this
      ensures Valid() && routes == newRoutes && graphRef == None
    {
      routes := newRoutes;
      graphRef := None;
    }

    method CurrentGraph() returns (g: Graph)
      requires Valid()
      modifies this`graphRef
      ensures Valid() && graphRef == Some(g) && g == GraphOf(distance, routes)
    {
      if graphRef.Some? {
        return graphRef.value;
      }
      g := Build(distance, routes);
      graphRef := Some(g);
    }

    /**
     * The whole query. `best` is the fastest way through the network, if there is any. If it rides, the answer is that
     * trip or plain walking, never more than 0.05 minutes behind the better of the two. If it does not, a walk of at
     * most 2 km is answered, whatever else there is, and for longer ones nothing. The walk is then as good as any trip
     * if no way on foot through the network is faster on paper.
     */
    method Plan(from: Point, to: Point) returns (outcome: Outcome, ghost best: Option<Trip>)
      requires Valid()
      modifies this`graphRef
      ensures Valid()
      ensures var km := 1.25 * distance(from, to);
        var inRange := (-90.0 <= from.lat <= 90.0 && -180.0 <= from.lng <= 180.0
                        && -90.0 <= to.lat <= 90.0 && -180.0 <= to.lng <= 180.0);
        && (outcome.BadRequest? <==> !inRange || km < 0.02)
        && (outcome.BadRequest? ==>
              outcome.reason == if !inRange then "Coordinates out of range"
                                else "Origin and destination are the same place")
        && (outcome.Planned? ==>
              || (km <= 2.0 && IsPlainWalk(outcome.journey, from, to, km))
              || IsRidePlan(distance, GraphOf(distance, routes), from, to, outcome.journey))
      ensures var g, walkKm := GraphOf(distance, routes), StreetKm(distance, from, to);
        !outcome.BadRequest? ==>
          && (best.None? <==> !exists t :: DoorToDoor(distance, g, from, to, t))
          && (best.Some? ==> Fastest(distance, g, from, to, best.value))
          && (outcome.NotFound? <==> walkKm > MAX_WALK_ONLY_KM && !HasTransit(best))
          && (outcome.Planned? ==>
                || (outcome.journey == WalkOnly(from, to, walkKm) && walkKm <= MAX_WALK_ONLY_KM
                    && (HasTransit(best) ==>
                          WalkMinutes(walkKm) <= DoorMinutes(distance, g, to, best.value) + 0.05))
                || (HasTransit(best) && Describes(distance, g, from, to, best.value, outcome.journey)
                    && (walkKm <= MAX_WALK_ONLY_KM ==>
                          DoorMinutes(distance, g, to, best.value) < WalkMinutes(walkKm) + 0.05)))
      ensures var g, walkKm := GraphOf(distance, routes), StreetKm(distance, from, to);
        && (outcome.NotFound? ==>
              && walkKm > MAX_WALK_ONLY_KM
              && ((forall t :: !DoorToDoor(distance, g, from, to, t))
                  || exists t :: Fastest(distance, g, from, to, t) && !RidesBus(t)))
        && (!outcome.BadRequest? && walkKm > MAX_WALK_ONLY_KM ==>
              (forall t :: Fastest(distance, g, from, to, t) ==> !RidesBus(t)) ==> outcome.NotFound?)
        && (!outcome.BadRequest? && !(exists chain :: OnFoot(distance, g, from, to, chain)) ==>
              (exists t :: DoorToDoor(distance, g, from, to, t)) ==> outcome.Planned?)
      ensures var g, walkKm := GraphOf(distance, routes), StreetKm(distance, from, to);
        !outcome.BadRequest? && walkKm <= MAX_WALK_ONLY_KM ==>
          && outcome.Planned?
          && ((forall t :: Fastest(distance, g, from, to, t) ==> !RidesBus(t)) ==>
                outcome.journey == WalkOnly(from, to, walkKm))
          && ((forall t :: Fastest(distance, g, from, to, t) ==> RidesBus(t))
              || NoShortcut(distance, g, from, to) ==>
                exists minutes ::
                  outcome.journey.totalMinutes == Round1(minutes) && NearBest(distance, g, from, to, minutes))
    {
      hide IsNetwork, GraphOf, DoorToDoor, Fastest, Describes, RidesBus, Compiled, WalkMinutes, DoorMinutes, OnFoot;
      hide NearBest, NoShortcut, Round1, Round2, IsPlainWalk, IsRidePlan;
      best := None;
      if !IsValid(from) || !IsValid(to) {
        return BadRequest("Coordinates out of range"), None;
      }
      var directWalkKm := distance(from, to) * INDIRECTNESS;
      if directWalkKm < MIN_JOURNEY_KM {
        return BadRequest("Origin and destination are the same place"), None;
      }
      var g := CurrentGraph();
      GraphIsCompiled(distance, routes);
      RidelessTrips(distance, g, from, to);
      var transit := None;
      if g.nodes == [] {
        NoDoors(distance, g, from, to);
      } else {
        transit, best := PlanTransit(distance, g, from, to);
        if best.Some? {
          FastestLeads(distance, g, from, to, best.value);
        }
      }
      if transit.Some? {
        TotalOf(distance, g, from, to, best.value, transit.value);
      }
      if directWalkKm <= MAX_WALK_ONLY_KM {
        var walkMinutes := WalkMinutes(directWalkKm);
        if transit.None? || walkMinutes <= transit.value.totalMinutes {
          WalkAnswered(distance, g, from, to, best);
          WalkSpelledOut(from, to, directWalkKm);
          return Planned(WalkOnly(from, to, directWalkKm)), best;
        }
      }
      if transit.None? {
        return NotFound, best;
      }
      RideAnswered(distance, g, from, to, best.value);
      RideSpelledOut(distance, g, from, to, best.value, transit.value);
      return Planned(transit.value), best;
    }
  }

  lemma NoDoors(d: Distance, g: Graph, from: Point, to: Point)
    requires g.nodes == []
    ensures !exists t :: DoorToDoor(d, g, from, to, t)
  {
  }

  /** The walk is answered: there is no trip, or the fastest one rides and is hardly faster, or it does not ride. */
  lemma WalkAnswered(d: Distance, g: Graph, from: Point, to: Point, best: Option<Trip>)
    requires best.None? ==> !exists t :: DoorToDoor(d, g, from, to, t)
    requires best.Some? ==> Fastest(d, g, from, to, best.value)
    requires HasTransit(best) ==> WalkMinutes(StreetKm(d, from, to)) <= DoorMinutes(d, g, to, best.value) + 0.05
    ensures HasTransit(best) || best.None? || NoShortcut(d, g, from, to) ==>
              NearBest(d, g, from, to, WalkMinutes(StreetKm(d, from, to)))
  {
    hide DoorToDoor, RidesBus, WalkMinutes, DoorMinutes, NoShortcut;
    if best.Some? && !RidesBus(best.value) {
      WalkIsNearBest(d, g, from, to, best.value);
    }
  }

  lemma WalkSpelledOut(from: Point, to: Point, km: real)
    ensures IsPlainWalk(WalkOnly(from, to, km), from, to, km)
  {
    hide Round1, Round2;
    assert WalkMinutes(km) == 40.0 / 3.0 * km;
  }

  lemma RideSpelledOut(d: Distance, g: Graph, from: Point, to: Point, t: Trip, r: Response)
    requires Fastest(d, g, from, to, t) && RidesBus(t) && Describes(d, g, from, to, t, r)
    ensures IsRidePlan(d, g, from, to, r)
  {
    hide Fastest, Describes, RidesBus, Round1, DoorMinutes;
    TotalOf(d, g, from, to, t, r);
    RideIsShown(d, g, from, to, t, r);
  }

  lemma RideIsShown(d: Distance, g: Graph, from: Point, to: Point, t: Trip, r: Response)
    requires RidesBus(t) && Describes(d, g, from, to, t, r)
    ensures exists l :: l in r.legs && l.RideLeg?
  {
    hide RidesBus, Round1, Round2, Sections, LegsOf, LegOf, DoorMinutes, Summary, SectionsKm, TransferHops, Fits;
    hide Recovered, Cost, WalkMinutes;
    RidesShown(t, g.nodes);
    var ls, first, last := LegsOf(Sections(Hops(t)), g.nodes, Stations(t), Hops(t)), r.legs[0], r.legs[|r.legs| - 1];
    RideAmong(first, ls, last);
    assert r.legs == [first] + ls + [last];
  }

  lemma RideAnswered(d: Distance, g: Graph, from: Point, to: Point, best: Trip)
    requires Fastest(d, g, from, to, best)
    ensures End(best) < |g.nodes|
    ensures DoorMinutes(d, g, to, best) <= WalkMinutes(StreetKm(d, from, to)) + 0.05 ==>
              NearBest(d, g, from, to, DoorMinutes(d, g, to, best))
  {
    hide DoorMinutes, WalkMinutes;
  }

  lemma FastestLeads(d: Distance, g: Graph, from: Point, to: Point, t: Trip)
    requires Fastest(d, g, from, to, t)
    ensures DoorToDoor(d, g, from, to, t)
  {
  }

  lemma TotalOf(d: Distance, g: Graph, from: Point, to: Point, t: Trip, r: Response)
    requires Describes(d, g, from, to, t, r)
    ensures End(t) < |g.nodes| && r.totalMinutes == Round1(DoorMinutes(d, g, to, t))
  {
  }
}
