# City bus: verified model

A Dafny model of the four parts of the city bus application that carry its promises: the journey planner, the
live tracking registry with its socket handler, the login rate limiter, and the geometry of positions along a
route. `dafny verify dfyconfig.toml` checks all of it.

## How it is built

- **Geometry.** `Geo` holds points, an abstract distance and rounding; `Polyline` projects onto a path and slices
  it as the server does, `EtaGeometry` as the browser does, and the two are shown to agree.
- **Planner.** `Network` compiles routes into a graph of (route, stop) nodes. `ShortestPath` is Dijkstra's algorithm
  on arrays changed in place, with stale queue entries skipped when polled; a *trip* is any boarding followed by any
  hops, and distances are compared with all trips. `Access` chooses the stops within walking distance. `Itinerary`
  says how hops fold into rides and transfers, `Journey` turns them into legs, `Planner` joins access, search,
  egress and fold, `PlannerService` keeps the cached graph and answers queries. `NetworkLaws` and `LegsSpelledOut`
  spell out the network and the legs in figures, `PlannerGuarantees` and `RideFigures` say what the figures of an answer
  mean together, `ShortWalks` when a short walk is a good answer, and `ClientWaypoints` redraws a ride in the browser.
  `Examples`, `TransferExample` and `ShortWalkExample` are small networks on which these do not do what one would
  expect.
- **Tracking.** `LiveBus` is the history and speed of one bus. `Tracking` is the registry as a value with one step
  per operation, and its properties over all runs; `Histories` tells what the registry holds by the events of a
  run alone; `Orphans` says which runs leave a bus without a driver, for how long, and which leave a driver without a
  bus; `TrackingService` is the registry as objects updated in place,
  each method shown to take exactly that step. `Departures` adds connections and announcements, `Transport` says which
  events and open connections that makes, and `SocketHandler` is the handler as an object over the registry.
- **Rate limiter.** `RateLimiter` holds the limiter as objects, the specification, and the bounds over all runs;
  `ClientRate` says what a client can still get from a given moment on.
- **Pages.** `Ladder` is the stop ladder with its bead, `RouteText` the text of stops and paths in the route form.

Methods that change state are proved against functions on values (`GraphOf`, `Projected`, `Step`, `Act`, `Counted`
and so on); the lemmas are about those functions.

## What the model assumes

- Minutes, kilometres and coordinates are exact reals. Distance is any function that is non-negative, symmetric and
  zero from a point to itself.
- The clock is a parameter. Runs of the rate limiter have a non-decreasing clock, as its bounds need; the tracking
  properties need no such condition. Each public method is one step and reads the clock once.
- Routes have unique row ids and a headway of at least one minute, as the store and the request validation keep them.
- The length of a slice is stated for distances proportional along each segment and for paths without repeated
  neighbours.
- The priority queue is a multiset of which any least entry may be polled, and maps may be walked in any order, so
  the results hold for every order of ties and iteration.

## Findings

Where the code does not do what it is described to do, the model follows the code and states when the description
holds.

- **Ten logins a minute.** The design document says ten per minute and client address (`SYSTEM_DESIGN.md:28`; line 283
  admits a small burst). The code grants up to 19 in some 60,000 ms, because a window lives 60,001 ms and is opened by
  an attempt of its own. `RateBound` gives the exact maximum for every width, `BoundIsReached` a run that attains it.
  `TenAMinute` says when the promise does hold: for the minute from a moment on if and only if the client then has no
  live window with attempts left.
- **The fastest plan.** The README promises the fastest plan (`README.md:107`). If the cheapest chain boards and
  leaves without riding, `fold` gives nothing, whatever rides there are. If the walk is longer than 2 km, the answer is
  then that there is no journey even though a ride exists: `RideExistsButIsNotFound`. If it is not, the walk is
  answered even though a ride is faster: `RideExistsButWalkIsAnswered`. `Plan` states when, over the network and the
  query alone. Beyond 2 km no answer comes back only if there is no trip or a fastest one without a ride, and always if
  no fastest trip rides; it cannot happen where there is a trip but no way on foot, by transfer walks alone. Within
  2 km the answer is within 0.05 min of the walk and of every trip if every fastest trip rides or if no way on foot is
  a shortcut, and where no fastest trip rides only then (`WalkIsNearBest`). There are no shortcuts where detours are
  no shorter and buses come at least three minutes apart (`SparseHasNoShortcut`).
- **Times on the legs.** Durations and waits shown do not always add up to the total: a boarding that is followed by
  another walk is charged half a headway that no leg shows, as on the network of `PrintedTimesFallShort`. `ShownWaits`
  and `PrintedTimesAddUp` say exactly when.
- **Kilometres of a ride.** Where the stops of a ride hardly advance along the path, or go back, its distance is not
  the length of its line, as for the one of `LineFallsShort`: `LineIsAsLongAsPrinted` has the exact condition.
- **Registering twice.** A driver that registers another bus on the same connection leaves the first one live with
  nobody behind it: `SecondRegistrationOrphans`, with the exact condition for one step in `OverwriteBacked` and for
  whole runs in `BackedThroughout`. The bus stays so, through every sweep, until a driver registers it again:
  `OrphanUntilRegistered`, `RegistrationEndsIt`. The overwritten registration is never announced as having left.
- **Sharing a bus.** When one of two drivers of a bus leaves, the other is left without a live bus:
  `SharedBusGoesOffAir`, with the exact condition for one step in `OnAirAfter` and for whole runs in `OnAirThroughout`.
  The bus that comes back with the next fix has lost its route number and colour: `MarkOverRuns`.
- **Stop names.** The browser finds stops by name, so a ride from or to a stop that shares its name with an earlier
  one may be drawn elsewhere: `SharedNameMisleads`. Between two stops of one name it keeps to the server's line, which
  may be right: `SharedNameIsHarmless`. `ClientAgrees` has the condition, and `ClientOnCircle` that for a line that
  ends at its first stop: a ride to or from there is drawn the other way round.
- **Route form.** Names with a bar or a line end inside and names with a no-break space at either end can be stored
  but do not survive the form: `StopsRoundTrip` has the condition, and `BarIsRefused` is such a name.
- **Ladder.** The last row can be marked as passed while the bead is still above it, if the last two stops project to
  the same distance: `LastRowPassedBelow`, with the exact condition in `PassedLiesAbove`.

## Model

| member | source | states |
|---|---|---|
| Polyline.Project | src/main/java/com/citybus/service/JourneyPlannerService.java:438-472 | The one-pass loop finds the first segment whose clamped foot is nearest and the distance covered up to that foot; a path with fewer than two points gives position 0 |
| Polyline.FootIsClosest | src/main/java/com/citybus/service/JourneyPlannerService.java:445-456 | The clamped fraction is the closest point among all points of the segment, measured in degree space; a zero-length segment included |
| Polyline.NearestIsLeast | src/main/java/com/citybus/service/JourneyPlannerService.java:457-466 | The kept candidate is the least over all segments tried and strictly less than every earlier one |
| Polyline.ProjectedIsNearest | src/main/java/com/citybus/service/JourneyPlannerService.java:438-472 | A projection lies on the path, its distance lies between the prefix lengths at its segment ends, no segment foot is nearer, and no earlier one is as near |
| Polyline.SubPath | src/main/java/com/citybus/service/JourneyPlannerService.java:475-494 | The slice loop stays in bounds and returns both end positions with exactly the vertices strictly between them, or nothing for positions out of order |
| Polyline.SliceLength | src/main/java/com/citybus/service/JourneyPlannerService.java:475-494 | Between positions in order the slice starts and ends at the two positions and is exactly as long as the difference of their distances |
| Polyline.BackToBack | src/main/java/com/citybus/service/JourneyPlannerService.java:475-494 | Positions in order on segments out of order can only be one shared vertex, so the slice never loses a stretch |
| Polyline.ReverseLength | src/main/java/com/citybus/service/JourneyPlannerService.java:496-500 | Turning a line around keeps its length |
| EtaGeometry.FindRoutePos | src/main/resources/static/eta.js:48-56 | The browser finds the same segment, fraction, point and distance as the server, and the first point at infinite distance on a one-point path |
| EtaGeometry.CumKm | src/main/resources/static/eta.js:59-65 | The browser distance along a route equals the server `cumKm` for the same coordinates |
| EtaGeometry.SubPath | src/main/resources/static/eta.js:68-78 | The browser slice between the positions of two projections is the server slice |
| Geo.HalfHeadwayIsExact | src/main/java/com/citybus/service/JourneyPlannerService.java:502-508 | Half an integral headway survives rounding to one decimal, so the wait printed on a ride leg is exact |
| Geo.RoundedFigures | src/main/java/com/citybus/service/JourneyPlannerService.java:502-508 | Rounding gives the one whole number of tenths, or of hundredths, at most half a unit away, the upper one of two |
| Network.ServedContains | src/main/java/com/citybus/service/JourneyPlannerService.java:142-145 | The planner serves exactly the active routes with at least two stops |
| Network.ServedInOrder | src/main/java/com/citybus/service/JourneyPlannerService.java:142-145 | Routes are served in the order in which the store gives them |
| Network.Build | src/main/java/com/citybus/service/JourneyPlannerService.java:140-206 | For routes with unique row ids, the loops build the graph specified by `GraphOf` |
| Network.BuildNodes | src/main/java/com/citybus/service/JourneyPlannerService.java:147-161 | The node and path loops give every route one block, in stop order, and one path |
| Network.AddRides | src/main/java/com/citybus/service/JourneyPlannerService.java:171-184 | One pass over the nodes puts each ride hop into the lists of both its ends, in the order the lists are specified |
| Network.AddTransfers | src/main/java/com/citybus/service/JourneyPlannerService.java:187-200 | The pair loop adds exactly the transfers of each node behind its rides |
| Network.NodeAt | src/main/java/com/citybus/service/JourneyPlannerService.java:147-161 | Stop `i` of route `k` is the node at the start of the block of `k` plus `i`, carrying that route, stop and projection |
| Network.Locate | src/main/java/com/citybus/service/JourneyPlannerService.java:147-161 | Conversely every node is some stop of some route in its block |
| Network.NodesAreLaidOut | src/main/java/com/citybus/service/JourneyPlannerService.java:147-161 | Ids are positions, each route owns one contiguous block, and positions within it differ as stop indices do |
| Network.EdgesAre | src/main/java/com/citybus/service/JourneyPlannerService.java:171-200 | A node has an edge if and only if it is a ride to an adjacent stop of its own route or a transfer to a different route within 0.4 km, with the specified minutes and kilometres |
| Network.AtMostOneEdge | src/main/java/com/citybus/service/JourneyPlannerService.java:163-200 | No ordered pair of nodes has two edges |
| Network.EdgeCosts | src/main/java/com/citybus/service/JourneyPlannerService.java:171-200 | Every edge leads elsewhere and costs more than zero minutes; every ride costs the same in both directions |
| Network.RouteIndexOf | src/main/java/com/citybus/service/JourneyPlannerService.java:420-433 | The scan counts the route changes up to the first node of the route, and gives 0 for a route without nodes |
| Network.ChangesCountBlocks | src/main/java/com/citybus/service/JourneyPlannerService.java:420-433 | Within the block of route `k` that count is `k` |
| Network.OwnPath | src/main/java/com/citybus/service/JourneyPlannerService.java:420-433 | The path selected for the route of any node is the path of that very route |
| NetworkLaws.TransfersSpelledOut | src/main/java/com/citybus/service/JourneyPlannerService.java:187-200 | Two stops served are joined by a transfer if and only if their routes differ and they lie within 0.4 km, in both directions or in neither; it counts their distance and takes 40/3 minutes per kilometre and half the headway of the route changed to |
| NetworkLaws.RidesSpelledOut | src/main/java/com/citybus/service/JourneyPlannerService.java:171-184 | Two stops served are joined by a ride if and only if they are adjacent on one route; it counts the stretch of the path between them or 1.25 times their distance, the same both ways, and takes 3 minutes per kilometre and 0.4 |
| NetworkLaws.EdgesLeadToStops | src/main/java/com/citybus/service/JourneyPlannerService.java:163-206 | Every edge leads to some stop served |
| ShortestPath.SeedQueue | src/main/java/com/citybus/service/JourneyPlannerService.java:219-236 | Enqueuing the boardings establishes the search invariant and inserts at most one entry per boarding |
| ShortestPath.Poll | src/main/java/com/citybus/service/JourneyPlannerService.java:240-241 | A polled entry is one of the least; which one among equals is left open |
| ShortestPath.RelaxKeeps | src/main/java/com/citybus/service/JourneyPlannerService.java:246-252 | Recording a better arrival over an edge of the settled node keeps the invariant and never touches a settled node |
| ShortestPath.SettleKeeps | src/main/java/com/citybus/service/JourneyPlannerService.java:241-245 | The least entry of an unsettled node carries its final distance, and settling it keeps the invariant |
| ShortestPath.SkipKeeps | src/main/java/com/citybus/service/JourneyPlannerService.java:241-244 | Dropping a stale entry of a settled node keeps the invariant |
| ShortestPath.EmptyQueueBounds | src/main/java/com/citybus/service/JourneyPlannerService.java:239-253 | With an empty queue, no trip by any boarding and any hops is cheaper than the distance of its end |
| ShortestPath.RelaxEdges | src/main/java/com/citybus/service/JourneyPlannerService.java:246-252 | Relaxing in place leaves no edge of any settled node improvable, inserting at most one entry per edge |
| ShortestPath.Visit | src/main/java/com/citybus/service/JourneyPlannerService.java:240-252 | One turn of the loop keeps the invariant: it skips a settled node and changes nothing, or settles a new one and relaxes its edges |
| ShortestPath.Search | src/main/java/com/citybus/service/JourneyPlannerService.java:213-253 | The search ends, its arrivals form a forest of trips, its distances are bounds for all trips, and it inserts at most as many entries as there are boardings and edges |
| ShortestPath.LeastCost | src/main/java/com/citybus/service/JourneyPlannerService.java:213-253 | The distance of a node is the least cost over every boarding and edge sequence reaching it, and infinite if and only if there is none |
| ShortestPath.TripTo | src/main/java/com/citybus/service/JourneyPlannerService.java:238-253 | The recorded arrivals of a reached node spell out a trip that ends there and costs exactly its distance |
| ShortestPath.Prefixes | src/main/java/com/citybus/service/JourneyPlannerService.java:294-302 | Every initial part of a recorded trip is the recorded trip of the node where it ends |
| ShortestPath.RecordedHops | src/main/java/com/citybus/service/JourneyPlannerService.java:294-302 | The edge recorded at each station of the chain is the hop by which the trip came there |
| ShortestPath.NoRepeats | src/main/java/com/citybus/service/JourneyPlannerService.java:294-302 | Walking the recorded links back from any node meets no node twice |
| Access.CandidatesAreNearest | src/main/java/com/citybus/service/JourneyPlannerService.java:279-288 | At most ten nodes within reach, nearest first with ties in node order; a reachable node is left out only for ten that come before it |
| Itinerary.SectionsDivide | src/main/java/com/citybus/service/JourneyPlannerService.java:314-339 | The fold divides the hops without gap or overlap into maximal rides and single transfers |
| Itinerary.OnlyDivision | src/main/java/com/citybus/service/JourneyPlannerService.java:314-339 | There is no other such division |
| Itinerary.UnfoldTiles | src/main/java/com/citybus/service/JourneyPlannerService.java:314-339 | Unfolding the sections gives back exactly the hops of the chain |
| Itinerary.SectionsMeet | src/main/java/com/citybus/service/JourneyPlannerService.java:314-339 | The sections start at the first station, end at the last, and each begins where the one before ended |
| Itinerary.TransfersCountHops | src/main/java/com/citybus/service/JourneyPlannerService.java:314-339 | The transfer count is the number of transfer hops |
| Itinerary.RidesSomewhere | src/main/java/com/citybus/service/JourneyPlannerService.java:350-352 | Some section is a ride if and only if some hop is one |
| Itinerary.TimeIsConserved | src/main/java/com/citybus/service/JourneyPlannerService.java:307-346 | The minutes of the hops are the minutes of all sections plus half the headway at every transfer target |
| Itinerary.ShownWaits | src/main/java/com/citybus/service/JourneyPlannerService.java:307-346 | The waits shown on ride legs never exceed those charged, and equal them if and only if every boarding is followed by a ride |
| Itinerary.RideIsStraight | src/main/java/com/citybus/service/JourneyPlannerService.java:366-404 | Along a ride the route never changes and stop indices move by one in a single direction |
| Journey.GraphIsCompiled | src/main/java/com/citybus/service/JourneyPlannerService.java:140-206 | Every built graph has the shape queries rely on: laid out in blocks, edges as specified, paths found by the route index |
| Journey.FindRide | src/main/java/com/citybus/service/JourneyPlannerService.java:372-386 | The search through an edge list finds a ride to the target if and only if there is one |
| Journey.OnlyEdge | src/main/java/com/citybus/service/JourneyPlannerService.java:372-386 | The edge found again by its target is the edge the search used |
| Journey.MakeRideLeg | src/main/java/com/citybus/service/JourneyPlannerService.java:366-404 | The ride leg carries the names, route, stop count, wait, distance, time and line of exactly the hops from its first to its last station |
| Journey.FoldHops | src/main/java/com/citybus/service/JourneyPlannerService.java:314-339 | The loop over the hops yields the legs of the sections in order, their kilometres and the transfer count |
| Planner.RecoverChain | src/main/java/com/citybus/service/JourneyPlannerService.java:294-302 | The backward walk ends at a boarding and, turned around, is the station list of the recorded trip |
| Planner.RecoverHops | src/main/java/com/citybus/service/JourneyPlannerService.java:314-316 | Reading the recorded edges along the chain gives the hops of that trip |
| Planner.RecordedTripIsChain | src/main/java/com/citybus/service/JourneyPlannerService.java:294-302 | The recorded trip is a chain of nodes of the graph, each hop an edge of the node before, none met twice |
| Planner.Fold | src/main/java/com/citybus/service/JourneyPlannerService.java:291-364 | The answer describes the recorded trip; it is null if and only if no hop of the trip is a ride |
| Planner.BestIsFastest | src/main/java/com/citybus/service/JourneyPlannerService.java:255-273 | The chosen alighting stop ends a trip at most as long, door to door, as every combination of boarding stop, hops and alighting stop; none is chosen only if there is none |
| Planner.PlanTransit | src/main/java/com/citybus/service/JourneyPlannerService.java:213-277 | A plan describes a fastest door-to-door trip that rides; there is no plan if no door-to-door trip exists or the fastest trip found rides nothing |
| Planner.ListBoardings | src/main/java/com/citybus/service/JourneyPlannerService.java:226-236 | The boardings are those of the access candidates, each charged its walk and half its headway |
| Planner.ChooseExit | src/main/java/com/citybus/service/JourneyPlannerService.java:256-271 | The loop finds an alighting stop of least total among those reached, or none if none is reached |
| Planner.RidelessTrips | src/main/java/com/citybus/service/JourneyPlannerService.java:350-352 | The network can be crossed without a ride if and only if transfer walks alone lead from a stop near the origin to one near the destination |
| NetworkLaws.DoorMinutesSpelledOut | src/main/java/com/citybus/service/JourneyPlannerService.java:225-271 | From door to door a trip takes 50/3 minutes per kilometre to its first stop and from its last, each within 1.5 km, half the headway of its first route, and the minutes of its hops |
| PlannerService.JourneyPlanner.CurrentGraph | src/main/java/com/citybus/service/JourneyPlannerService.java:125-138 | The graph handed out, cached or new, is the graph of the routes now stored |
| PlannerService.JourneyPlanner.Plan | src/main/java/com/citybus/service/JourneyPlannerService.java:94-121 | Bad requests exactly for coordinates out of range or ends less than 20 m apart, in words for each. A walk is answered as one leg of at most 2 km with 40/3 minutes per kilometre, to two and one decimals, and a ride with the time of a fastest trip. If the fastest trip found rides, the answer is that trip or plain walking of at most 2 km, within 0.05 min of the better. If no fastest trip rides, a walk of at most 2 km is answered and for a longer one nothing; if there is a trip but no way on foot, there is an answer. Within 2 km the answer is within 0.05 min of the walk and of every trip if every fastest trip rides or no way on foot is a shortcut |
| ShortWalks.WalkBeatsRideless | src/main/java/com/citybus/service/JourneyPlannerService.java:105-113 | Where detours are no shorter and headways are three minutes or more, every trip without a ride takes at least 1.5 min longer than the direct walk |
| ShortWalks.SparseHasNoShortcut | src/main/java/com/citybus/service/JourneyPlannerService.java:105-113 | So no way on foot through such a network is a shortcut |
| ShortWalks.WalkIsNearBest | src/main/java/com/citybus/service/JourneyPlannerService.java:105-113 | Where the fastest trip does not ride, the direct walk is within 0.05 min of every trip if and only if no way on foot through the network is a shortcut |
| PlannerGuarantees.DoorTimeIsConserved | src/main/java/com/citybus/service/JourneyPlannerService.java:307-346 | Before rounding, the total is both walks, all sections, and half the headway at the first stop and every transfer target |
| PlannerGuarantees.PrintedTimesAddUp | src/main/java/com/citybus/service/JourneyPlannerService.java:341-364 | The printed total is the sum of the printed durations and waits up to 0.05 min per figure, plus a hidden wait that is zero if and only if every boarding leads to a ride |
| PlannerGuarantees.LegsFormAJourney | src/main/java/com/citybus/service/JourneyPlannerService.java:304-364 | Consecutive legs meet at the same stop, no two rides are adjacent, and the walks number the transfers plus two |
| LegsSpelledOut.SummaryNamesTheRides | src/main/java/com/citybus/service/JourneyPlannerService.java:354-357 | The summary has one entry for every time the rider gets on a bus, in travel order: the number of the route at that station; so have the ride legs, with its number, name and colour |
| LegsSpelledOut.RideLegSpelledOut | src/main/java/com/citybus/service/JourneyPlannerService.java:366-404 | A ride leg carries the names of its ends, the number of its hops, half its headway, their kilometres and minutes to two and one decimals, and a line from the place of one end on the path to that of the other |
| LegsSpelledOut.WalkLegSpelledOut | src/main/java/com/citybus/service/JourneyPlannerService.java:327-336 | A transfer leg carries the names and places of its ends, the kilometres of its hop and 40/3 minutes for each |
| LegsSpelledOut.OuterLegsSpelledOut | src/main/java/com/citybus/service/JourneyPlannerService.java:304-346 | The first and last legs walk 1.25 times the straight distance from the origin to the first stop and from the last stop to the destination |
| LegsSpelledOut.TotalsSpelledOut | src/main/java/com/citybus/service/JourneyPlannerService.java:341-364 | The total minutes are the time of the trip and the total kilometres those of both street walks, every ride as printed and every transfer, rounded once |
| PlannerGuarantees.RideGeometryFits | src/main/java/com/citybus/service/JourneyPlannerService.java:388-397 | Ridden either way, the line runs from one stop position on the path to the other and is as long as the difference of their distances |
| Examples.RideExistsButIsNotFound | src/main/java/com/citybus/service/JourneyPlannerService.java:350-352 | A network, an origin and a destination with a ride from door to door for which every fastest trip rides nothing and the walk is too long to be offered |
| ShortWalkExample.RideExistsButWalkIsAnswered | src/main/java/com/citybus/service/JourneyPlannerService.java:105-113 | A network with headways of one minute, an origin and a destination one street kilometre apart, with a ride more than a minute faster than the walk, for which no fastest trip rides, so that the walk is answered |
| TransferExample.PrintedTimesFallShort | src/main/java/com/citybus/service/JourneyPlannerService.java:341-364 | Two lines, an origin and a destination whose one fastest trip rides, so that it is answered, while its printed total exceeds its printed legs and waits by at least 4.75 min |
| RideFigures.RidePace | src/main/java/com/citybus/service/JourneyPlannerService.java:171-184 | A ride takes three minutes per kilometre and 0.4 minutes per stop reached, over any number of hops |
| RideFigures.RideTelescopes | src/main/java/com/citybus/service/JourneyPlannerService.java:171-184 | The kilometres of any ride are the stretch of the path between its ends, in either direction, and the surplus of the hops that fall back to 1.25 times the straight distance |
| RideFigures.LineIsAsLongAsPrinted | src/main/java/com/citybus/service/JourneyPlannerService.java:366-404 | The distance of a ride is the length of the line drawn for it if and only if these surpluses add up to zero, or to twice the line where the later stop lies further back on the path; they do where every ridden hop leads on along the path |
| Examples.LineFallsShort | src/main/java/com/citybus/service/JourneyPlannerService.java:171-184 | A line whose two stops lie beyond the end of its path: the ride between them counts 1.25 km and its line is 0 km long |
| RideFigures.PrintedKilometresAddUp | src/main/java/com/citybus/service/JourneyPlannerService.java:304-364 | The printed total kilometres are the sum of the printed legs up to 0.005 km per walk and for the total |
| ClientWaypoints.RideLegWaypoints | src/main/resources/static/planner.js:324-335 | The loop in the browser returns the stops between the first stops of those names, in either direction, or the server line for an unknown route, an unknown name or a single stop |
| ClientWaypoints.RideRunsStraight | src/main/java/com/citybus/service/JourneyPlannerService.java:366-404 | The stations of a ride are the stops between its ends, and the stop count is the difference of their indices |
| ClientWaypoints.ClientAgrees | src/main/resources/static/planner.js:324-335 | The browser draws the stations travelled if neither end shares its name with an earlier stop; between ends of one name it draws the server line; where no stop of their names stands in their places, it is right if and only if, for ends of one name, the server line is the stations, and otherwise neither end shares its name with an earlier stop |
| ClientWaypoints.ClientOnCircle | src/main/resources/static/planner.js:324-335 | On a line whose last stop is its first one again, other names and places being unique, a ride is drawn as travelled if and only if it ends at neither or the list has three stops; all the way round, if and only if the server line is the stations |
| Examples.SharedNameMisleads | src/main/resources/static/planner.js:324-335 | A ride on from the mill to the second depot of a line is drawn as a ride back to the first |
| Examples.SharedNameIsHarmless | src/main/resources/static/planner.js:324-335 | A ride between two depots, neither name unique, for which the browser draws exactly the stations travelled |
| RateLimiter.LoginRateLimiter.TryAcquire | src/main/java/com/citybus/security/LoginRateLimitFilter.java:71-83 | One attempt purges when over 10,000 clients are tracked, opens or reuses the window of the client, counts, and answers as specified |
| RateLimiter.PurgingIsInvisible | src/main/java/com/citybus/security/LoginRateLimitFilter.java:73-75 | For any attempts of any number of clients, every answer is that of a limiter that never purges |
| RateLimiter.TrackedAfter | src/main/java/com/citybus/security/LoginRateLimitFilter.java:71-81 | After an attempt the client is tracked; so is everybody else tracked before if those were at most 10,000, and otherwise only those whose window is alive, unchanged |
| RateLimiter.WindowCounts | src/main/java/com/citybus/security/LoginRateLimitFilter.java:77-81 | A window counts exactly the attempts of its client since it began, all of them within its length |
| RateLimiter.FirstTenAreGranted | src/main/java/com/citybus/security/LoginRateLimitFilter.java:76-82 | An attempt is granted if and only if fewer than ten were made in its window before it |
| RateLimiter.GrantsBound | src/main/java/com/citybus/security/LoginRateLimitFilter.java:71-83 | The sharp bound with the state of the open window, at every point of every run |
| RateLimiter.RateBound | src/main/java/com/citybus/security/LoginRateLimitFilter.java:30-41 | In every run with a non-decreasing clock one client gets at most `MaxGrants(W)` grants in any `W` ms: 19 in 60,000 ms, and never more than 10*(2 + W/60000) |
| RateLimiter.BoundIsReached | src/main/java/com/citybus/security/LoginRateLimitFilter.java:30-41 | For every width and starting time some run reaches that bound |
| ClientRate.BoundByState | src/main/java/com/citybus/security/LoginRateLimitFilter.java:71-83 | From any moment on and for any width, a client is granted at most what its live window has left and ten for every window that can begin once that one has run out |
| ClientRate.StateIsExhausted | src/main/java/com/citybus/security/LoginRateLimitFilter.java:71-83 | Whatever happened before, some continuation is granted exactly that much |
| ClientRate.TenAMinute | src/main/java/com/citybus/security/LoginRateLimitFilter.java:30-41 | Every continuation is granted at most ten in the minute from a moment on if and only if the client then has no live window with attempts left; if one has counted c < 10, the most is 20 - c, and it is reached |
| LiveBus.LiveBusState.AddPoint | src/main/java/com/citybus/service/LiveTrackingService.java:125-131 | A fix goes to the end of the buffer, pushing out the oldest of sixty |
| LiveBus.HistoryIsTheLatest | src/main/java/com/citybus/service/LiveTrackingService.java:125-131 | After `n` fixes the buffer holds the last min(60, n) of them, in order |
| LiveBus.LiveBusState.SpeedKmh | src/main/java/com/citybus/service/LiveTrackingService.java:145-167 | The loop over the history computes the specified speed |
| LiveBus.SlowestAndFastest | src/main/java/com/citybus/service/LiveTrackingService.java:145-167 | The average over the measured gaps lies between the speeds of two of those gaps, whatever the order of the timestamps |
| LiveBus.SpeedIsHonest | src/main/java/com/citybus/service/LiveTrackingService.java:145-167 | A speed is reported only over three measured seconds or more, lies in [0, 120], and before the clamp lies between two per-gap speeds |
| LiveBus.TwoFixes | src/main/java/com/citybus/service/LiveTrackingService.java:149-161 | Between two fixes the whole gap is measured if it is 500 ms or more, and otherwise nothing |
| LiveBus.TotalsAdd | src/main/java/com/citybus/service/LiveTrackingService.java:149-161 | Cut at any of its fixes, a history measures what its two parts measure, so that every long enough gap counts, once |
| LiveBus.SpeedIsMeasured | src/main/java/com/citybus/service/LiveTrackingService.java:162-166 | A speed is reported if and only if 3000 ms or more were measured; it covers the measured distance in the measured time, or is 120 km/h if that would be more |
| Tracking.AlwaysInRange | src/main/java/com/citybus/service/LiveTrackingService.java:234-270 | In every run every coordinate stored in a session or a history is in range |
| Tracking.StepBacked | src/main/java/com/citybus/service/LiveTrackingService.java:203-232 | An operation that does not register over a live session keeps every live bus named by a driver session |
| Tracking.OverwriteBacked | src/main/java/com/citybus/service/LiveTrackingService.java:207-219 | Registering over a live session keeps the buses backed if and only if the old session was no driver, or its bus is not live, is the new one, or is named by another session |
| Tracking.NeverOrphaned | src/main/java/com/citybus/service/LiveTrackingService.java:203-262 | In every run in which no registration replaces a live session, every live bus is named by a driver session at all times |
| Tracking.SecondRegistrationOrphans | src/main/java/com/citybus/service/LiveTrackingService.java:207-213 | A driver registering a second bus on one connection leaves the first bus live without a driver |
| Orphans.BackedThroughout | src/main/java/com/citybus/service/LiveTrackingService.java:203-232 | Every live bus is named by a driver session at every point of a run if and only if every registration over a live session in it meets that condition |
| Orphans.OrphanStays | src/main/java/com/citybus/service/LiveTrackingService.java:203-391 | No operation but the registration of a driver for it changes that a live bus is named by nobody, sweeps included, and no fix reaches it |
| Orphans.OrphanUntilRegistered | src/main/java/com/citybus/service/LiveTrackingService.java:203-391 | So in every run such a bus stays live, unnamed and with the same history until a driver registers it |
| Orphans.RegistrationEndsIt | src/main/java/com/citybus/service/LiveTrackingService.java:207-213 | And the registration of a driver for it ends this |
| Orphans.OnAirAfter | src/main/java/com/citybus/service/LiveTrackingService.java:203-391 | While every driver session has a live bus, a step keeps that if and only if no driver that it removes or sweeps away shares its bus with one that stays |
| Orphans.OnAirThroughout | src/main/java/com/citybus/service/LiveTrackingService.java:203-391 | Every driver session has a live bus at every point of a run if and only if every step of it parts the drivers in that way |
| Orphans.SharedBusGoesOffAir | src/main/java/com/citybus/service/LiveTrackingService.java:226-232 | Two drivers register one bus, each on a connection of its own; when the first leaves, the second has no live bus |
| Tracking.SweepSplits | src/main/java/com/citybus/service/LiveTrackingService.java:382-391 | A sweep keeps exactly the sessions heard from at or after the cutoff, unchanged |
| Tracking.SweptBusesAreFresh | src/main/java/com/citybus/service/LiveTrackingService.java:382-391 | Right after a sweep every surviving live bus has a driver heard from within the timeout |
| Tracking.AlertsAreSpaced | src/main/java/com/citybus/service/LiveTrackingService.java:352-379 | In every run any two alerts of one registration are at least 120,000 ms apart |
| Tracking.AlertRate | src/main/java/com/citybus/service/LiveTrackingService.java:352-379 | At most 1 + W/120000 alerts of one registration fall into any W ms |
| Tracking.HistoryOverRuns | src/main/java/com/citybus/service/LiveTrackingService.java:125-131 | In every run a live bus holds the last sixty fixes accepted since it was opened, or all of them, in order |
| Tracking.MarkOverRuns | src/main/java/com/citybus/service/LiveTrackingService.java:207-262 | In every run a live bus carries the route number and colour of its last registration if it has been live ever since, and none otherwise |
| Histories.SessionsOverRuns | src/main/java/com/citybus/service/LiveTrackingService.java:203-315 | In every run there is a session exactly for those who registered and were not removed since nor silent at a sweep, and it holds the last bus tracked, route subscribed to, position and message of that registration |
| Histories.BusesOverRuns | src/main/java/com/citybus/service/LiveTrackingService.java:203-308 | In every run there is a live bus exactly for those registered or reached by a fix with no driver gone since, and it holds the last word on its driver, visibility, accuracy, occupancy and place |
| Histories.DueOverRuns | src/main/java/com/citybus/service/LiveTrackingService.java:352-379 | A rider is due if and only if they are present, the bus they last asked to track is live, to be shown and at its last fix within 0.5 km of their last position, and they were not told within 120,000 ms |
| Histories.AlertsOverRuns | src/main/java/com/citybus/service/LiveTrackingService.java:352-379 | A call for alerts tells exactly those riders, each once and of that bus at that distance |
| Histories.CardsOverRuns | src/main/java/com/citybus/service/LiveTrackingService.java:393-405 | What riders are shown of a live bus is the last word on each matter, and the speed of its last sixty fixes |
| Histories.FleetOverRuns | src/main/java/com/citybus/service/LiveTrackingService.java:319-325 | Riders are shown exactly the live buses that are to be shown and have sent a fix |
| TrackingService.FixIsShown | src/main/java/com/citybus/service/LiveTrackingService.java:236-262 | The card after a fix shows the place, the time and whatever else came with it, and a speed only within [0, 120] |
| TrackingService.LiveTrackingService.RegisterDriver | src/main/java/com/citybus/service/LiveTrackingService.java:207-213 | Replaces the session on the connection and the live bus, with the number and colour of its route, and returns the new session |
| TrackingService.LiveTrackingService.RegisterUser | src/main/java/com/citybus/service/LiveTrackingService.java:215-219 | Replaces the session on the connection and leaves the buses alone |
| TrackingService.LiveTrackingService.RemoveSession | src/main/java/com/citybus/service/LiveTrackingService.java:226-232 | Removes and returns the session and retires the bus of a driver, even one that another session names |
| TrackingService.LiveTrackingService.UpdateDriverLocation | src/main/java/com/citybus/service/LiveTrackingService.java:236-262 | Ignores strangers, riders and invalid coordinates; otherwise reopens a retired bus without its route, records the fix on session and bus, and returns the card of the bus as it then is |
| TrackingService.LiveTrackingService.UpdateUserLocation | src/main/java/com/citybus/service/LiveTrackingService.java:264-270 | Records a valid position of any known session, and nothing else |
| TrackingService.LiveTrackingService.Track | src/main/java/com/citybus/service/LiveTrackingService.java:272-278 | Any known session, driver or rider, starts tracking the bus and counts as heard from |
| TrackingService.LiveTrackingService.Subscribe | src/main/java/com/citybus/service/LiveTrackingService.java:281-287 | Only a known rider session changes its subscription and counts as heard from |
| TrackingService.LiveTrackingService.SetOccupancy | src/main/java/com/citybus/service/LiveTrackingService.java:290-302 | Exactly for a driver whose bus is live it records the level, counts the session as heard from, and returns the card of the bus |
| TrackingService.LiveTrackingService.SnapshotVisibleBuses | src/main/java/com/citybus/service/LiveTrackingService.java:319-325 | Exactly the cards of the visible buses that have sent a fix, one each, in any order of the map |
| TrackingService.LiveTrackingService.SetDriverVisibility | src/main/java/com/citybus/service/LiveTrackingService.java:304-308 | Shows or hides every bus of that driver, whatever order the map is walked in |
| TrackingService.LiveTrackingService.Ping | src/main/java/com/citybus/service/LiveTrackingService.java:310-315 | Only the time of the last message of that session changes |
| TrackingService.LiveTrackingService.PendingProximityAlerts | src/main/java/com/citybus/service/LiveTrackingService.java:352-379 | Alerts exactly the riders whose tracked bus is live, visible, located, within 0.5 km and past the cooldown, each once, and marks exactly those |
| TrackingService.LiveTrackingService.CheckDue | src/main/java/com/citybus/service/LiveTrackingService.java:353-372 | The chain of tests in the loop decides exactly who is due and what the alert says |
| TrackingService.LiveTrackingService.EvictStaleSessions | src/main/java/com/citybus/service/LiveTrackingService.java:382-391 | Removes exactly the stale sessions one by one, retires their buses, and returns each evicted session once |
| SocketHandler.BusTrackingHandler.HandleDriverRegister | src/main/java/com/citybus/websocket/BusTrackingWebSocketHandler.java:146-177 | Registers the bus named by the token with the mark of its route, confirms it to the driver and gives notice of the new driver; refuses a missing token, another role and a driver without a bus, in words of their own, and then changes nothing |
| SocketHandler.BusTrackingHandler.HandleUserRegister | src/main/java/com/citybus/websocket/BusTrackingWebSocketHandler.java:231-238 | Registers a rider on the connection, under the generated name if the one given is blank, and answers that name and the fleet as it then is |
| SocketHandler.BusTrackingHandler.Cleanup | src/main/java/com/citybus/websocket/BusTrackingWebSocketHandler.java:287-290 | Closes the connection, removes its session and announces it if it was a driver |
| SocketHandler.BusTrackingHandler.HandleTransportError | src/main/java/com/citybus/websocket/BusTrackingWebSocketHandler.java:277-280 | Has the effect of the transport-error step |
| SocketHandler.BusTrackingHandler.AfterConnectionClosed | src/main/java/com/citybus/websocket/BusTrackingWebSocketHandler.java:283-285 | Has the effect of the close step |
| SocketHandler.BusTrackingHandler.SayGoodbye | src/main/java/com/citybus/websocket/BusTrackingWebSocketHandler.java:329-337 | Closes the connections of exactly the evicted sessions and announces exactly the drivers among them, once each |
| SocketHandler.BusTrackingHandler.EvictStaleSessions | src/main/java/com/citybus/websocket/BusTrackingWebSocketHandler.java:326-338 | Has the effect of the sweep step on registry, connections and announcements |
| Departures.ActKeepsAccount | src/main/java/com/citybus/websocket/BusTrackingWebSocketHandler.java:276-338 | Every message, error, close and sweep keeps the books: each recorded driver is live, overwritten or announced, exactly one of them |
| Departures.AlwaysAccounted | src/main/java/com/citybus/websocket/BusTrackingWebSocketHandler.java:276-338 | So they balance in every run |
| Departures.AnnouncedExactlyOnce | src/main/java/com/citybus/websocket/BusTrackingWebSocketHandler.java:276-299 | In every run a driver registration that was not overwritten is announced exactly once if its session is gone and not at all while it is there; nothing else is announced |
| Departures.DriversAreRecorded | src/main/java/com/citybus/websocket/BusTrackingWebSocketHandler.java:146-177 | The record behind that statement is the history: it holds every driver registration of the run, unchanged |
| Transport.RegistryOverRuns | src/main/java/com/citybus/websocket/BusTrackingWebSocketHandler.java:276-338 | The registry behind the transport has gone through exactly the messages, a removal for every error and close, and a sweep with 120,000 ms for every sweep |
| Transport.PresentOverRuns | src/main/java/com/citybus/websocket/BusTrackingWebSocketHandler.java:276-338 | So somebody is registered on a connection exactly as these events tell |
| Transport.OpenOverRuns | src/main/java/com/citybus/websocket/BusTrackingWebSocketHandler.java:103-110 | A connection is open if and only if it was established and has not been closed, failed or been swept away with a silent session since |
| Transport.OverwrittenOverRuns | src/main/java/com/citybus/websocket/BusTrackingWebSocketHandler.java:146-177 | The overwritten registrations are those on whose connection another registration came while they held it, and no others |
| Ladder.UpdateBusPosition | src/main/resources/static/script.js:706-724 | The loops compute the upper edge of the bead and the passed rows as specified, for a single stop as well |
| Ladder.BeadIsMonotone | src/main/resources/static/script.js:709-722 | With rows in order a bus further along never gets a higher bead than one behind it, and the bead stays between the first and last row, wherever the stops project to |
| Ladder.BeadIsProportional | src/main/resources/static/script.js:709-722 | The bead stands between the first two rows whose stops have the bus between them, in proportion to where the bus is between the stops |
| Ladder.BeadOnRow | src/main/resources/static/script.js:709-722 | Where the stops come one after the other, the bead of a bus at a stop is on the row of that stop |
| Ladder.PassedIsAPrefix | src/main/resources/static/script.js:724-724 | The passed rows are the first few for every position if and only if the stops come in order along the path |
| Ladder.PassedLiesAbove | src/main/resources/static/script.js:709-724 | A passed row is never below the bead, except the last row when its stop shares its distance with the stop before |
| Ladder.LastRowPassedBelow | src/main/resources/static/script.js:709-724 | With the last two stops at one place, the last row is passed while the bead stays on the row above |
| RouteText.StopLineReadsBack | src/main/resources/static/admin.js:410-419 | A printed stop is one trimmed non-empty line that reads back as that stop |
| RouteText.ReadNamesCarry | src/main/resources/static/admin.js:410-419 | Whatever text is read, its names are trimmed, not empty, and free of bars, line ends and carriage returns |
| RouteText.StopsRoundTrip | src/main/resources/static/admin.js:402-419 | For any numbers that read back as written, through a text area that turns carriage returns into line ends, printing any number of stops and reading them back returns them if and only if every name is trimmed, not empty, and free of bars, line ends and carriage returns |
| RouteText.BarIsRefused | src/main/resources/static/admin.js:410-414 | A stop whose name has a bar inside is refused when read back, as a line of the wrong form |
| RouteText.StopLineIsRead | src/main/resources/static/admin.js:410-419 | A line with two bars is read as name, latitude and longitude, each trimmed, if the name is not blank and both others are numbers, and refused in words for either otherwise |
| RouteText.OtherLinesAreRefused | src/main/resources/static/admin.js:410-414 | A line with more or fewer bars is refused |
| RouteText.FirstBadLine | src/main/resources/static/admin.js:410-419 | A text is refused for its first bad line, by the number of that line, and read line by line if there is none |
| RouteText.LinesAdd | src/main/resources/static/admin.js:411-411 | Blank lines are dropped wherever they are |
| RouteText.PointLineIsRead | src/main/resources/static/admin.js:421-429 | A line with one comma is read as latitude and longitude if both are numbers, and refused otherwise |
| RouteText.OtherPointsAreRefused | src/main/resources/static/admin.js:421-429 | A line with more or fewer commas is refused |
| RouteText.PathRoundTrip | src/main/resources/static/admin.js:402-429 | For any such numbers, printing any path and reading it back returns it |

## Left out

- Floating point and the haversine formula: arithmetic is over exact reals and distance is abstract.
- Interleavings inside one tracking or limiter method: each method is one step.
- Overlap of a route edit with a planner query: an edit and the event that drops the graph are one step.
- PlannerService.JourneyPlanner.Plan: the text of error messages and of the walk-only summary is reduced to what tells
  the outcomes apart, and the summary of a plan is the list of route numbers ridden.
- Journey.MakeRideLeg: the branch for an edge that is not found again is not modelled as an outcome, since `OnlyEdge`
  shows that the edge is always found.
- Planner.Fold: recovering the chain, reading its hops and folding them are three methods where the source has one
  with two loops. The boardings
  are listed before the search instead of being enqueued as they are found.
- Planner.PlanTransit: when several trips are equally fast, which of them is found is left open, so a tie between a
  trip that rides and one that does not may go either way.
- EtaGeometry.FindRoutePos: the path is not empty; the request validation keeps two points or more in every path.
- EtaGeometry.SubPath: equal to the server slice only for positions that come from projections.
- RideFigures.LineIsAsLongAsPrinted: for paths of two points or more; without a path the line is the two stops.
- ClientWaypoints.ClientAgrees: the converse is stated where no other stop of the name of an end stands in its place,
  and in ClientOnCircle for circular lines; otherwise the line could be right by coincidence. The
  routes of the browser are those of the server.
- RateLimiter.LoginRateLimiter.TryAcquire: the overflow of the counter after 2^31 attempts in one window, the HTTP
  filter around it, and how the client key is taken from the request.
- TrackingService.FixIsShown: the queries for one bus, its history and the sessions of a kind, which read single
  entries or filter them, are not modelled.
- Tracking.NeverOrphaned: stated for runs in which no registration replaces a live session, because it fails
  otherwise; Orphans.BackedThroughout has the exact condition. Orphans.OnAirThroughout has that of the converse.
- SocketHandler.BusTrackingHandler.HandleDriverRegister: parsing the message, verifying the token and looking up the
  route; claims and route are parameters.
- SocketHandler.BusTrackingHandler.HandleUserRegister: generating a name, which is a parameter.
- Sending and delivery of messages: an announcement is counted when it is handed over and a reply is a result;
  greetings, acknowledgements of single messages and other broadcasts are left out.
- Ladder.UpdateBusPosition: the status text below the ladder and all drawing.
- RouteText.StopsRoundTrip: the numbers and how they are written and read are abstract: a written number reads back as
  itself and contains no white space, bar or comma. Whole numbers are shown to be an example; floating-point printing
  is not modelled.
- Departure tables, time labels, arrival estimates, fares, emissions, thinning of histories and pagination: single
  expressions beside the rest.
- Storage, caching, authentication, JSON, maps, chatbot and the service worker: libraries, input and output.
