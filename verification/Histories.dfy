/** What the registry holds after a run, told by the events of the run: the last word on each matter. */
module Histories {
  import opened Geo
  import opened Options
  import opened LiveBus
  import opened Tracking
  import opened TrackingService

  // ---- Sessions: since the last registration on the connection -----------------------

  predicate Enters(e: Event, sid: string) {
    Registers(e) && e.sid == sid
  }

  /** Who is on the connection. */
  function ClientOf(run: seq<Timed>, sid: string, n: nat): Client
    requires n <= |run|
  {
    if n == 0 then User
    else
      var e := run[n - 1].event;
      if Enters(e, sid) then (if e.RegisterDriver? then Driver(e.busCode) else User) else ClientOf(run, sid, n - 1)
  }

  function NameOf(run: seq<Timed>, sid: string, n: nat): string
    requires n <= |run|
  {
    if n == 0 then ""
    else
      var e := run[n - 1].event;
      if Enters(e, sid) then (if e.RegisterDriver? then e.driverId else e.userId) else NameOf(run, sid, n - 1)
  }

  /** The bus last asked for. */
  function LastTracked(run: seq<Timed>, sid: string, n: nat): Option<string>
    requires n <= |run|
  {
    if n == 0 then None
    else
      match run[n - 1].event
      case TrackBus(s, b) => if s == sid then Some(b) else LastTracked(run, sid, n - 1)
      case e => if Enters(e, sid) then None else LastTracked(run, sid, n - 1)
  }

  /** The route a rider last subscribed to. */
  function LastSubscribed(run: seq<Timed>, sid: string, n: nat): Option<int>
    requires n <= |run|
  {
    if n == 0 then None
    else
      match run[n - 1].event
      case SubscribeRoute(s, r) =>
        if s == sid && ClientOf(run, sid, n - 1).User? then r else LastSubscribed(run, sid, n - 1)
      case e => if Enters(e, sid) then None else LastSubscribed(run, sid, n - 1)
  }

  /** The event is a position within range, sent by the connection as what it is registered for. */
  predicate Places(e: Event, sid: string, client: Client) {
    || (e.UserLocation? && e.sid == sid && IsInside(e.at))
    || (e.DriverLocation? && e.sid == sid && IsInside(e.at) && client.Driver?)
  }

  /** The position last sent. */
  function LastPlace(run: seq<Timed>, sid: string, n: nat): Option<Point>
    requires n <= |run|
  {
    if n == 0 then None
    else
      var e := run[n - 1].event;
      if Enters(e, sid) then None
      else if Places(e, sid, ClientOf(run, sid, n - 1)) then Some(e.at)
      else LastPlace(run, sid, n - 1)
  }

  /** The event shows that somebody is there: any message that is taken notice of. */
  predicate Speaks(e: Event, sid: string, client: Client, inService: bool) {
    || Enters(e, sid) || Places(e, sid, client)
    || (e.TrackBus? && e.sid == sid) || (e.Touch? && e.sid == sid)
    || (e.SubscribeRoute? && e.sid == sid && client.User?)
    || (e.ReportOccupancy? && e.sid == sid && client.Driver? && inService)
  }

  /** When the connection was last heard from. */
  ghost function LastHeard(run: seq<Timed>, sid: string, n: nat): int
    requires n <= |run|
    decreases n, 0
  {
    if n == 0 then 0
    else
      var client := ClientOf(run, sid, n - 1);
      var inService := client.Driver? && InService(run, client.busCode, n - 1);
      if Speaks(run[n - 1].event, sid, client, inService) then run[n - 1].now
      else LastHeard(run, sid, n - 1)
  }

  /** Somebody is registered on the connection: they have not been removed since, nor fallen silent at a sweep. */
  ghost predicate Present(run: seq<Timed>, sid: string, n: nat)
    requires n <= |run|
    decreases n, 0
  {
    if n == 0 then false
    else
      var e := run[n - 1].event;
      || Enters(e, sid)
      || (Present(run, sid, n - 1) && !(e.Remove? && e.sid == sid) && !(e.Sweep? && Silent(run, sid, n - 1)))
  }

  /** Sweep `i` finds the connection silent for longer than it allows. */
  ghost predicate Silent(run: seq<Timed>, sid: string, i: nat)
    requires i < |run| && run[i].event.Sweep?
    decreases i, 1
  {
    LastHeard(run, sid, i) < run[i].now - run[i].event.timeoutMs
  }

  /** A driver of the bus is on the connection. */
  ghost predicate Drives(run: seq<Timed>, sid: string, busCode: string, n: nat)
    requires n <= |run|
    decreases n, 1
  {
    Present(run, sid, n) && ClientOf(run, sid, n) == Driver(busCode)
  }

  // ---- Buses: since they were last registered, or reopened by a fix ---------------------

  /** The fix is taken for the bus: it is in range and comes from a driver of it. */
  ghost predicate Reaches(run: seq<Timed>, busCode: string, i: nat)
    requires i < |run|
    decreases i, 2
  {
    var e := run[i].event;
    e.DriverLocation? && IsInside(e.at) && Drives(run, e.sid, busCode, i)
  }

  /** The bus is live: registered or reached by a fix, and no driver of it has left since. */
  ghost predicate InService(run: seq<Timed>, busCode: string, n: nat)
    requires n <= |run|
    decreases n, 0
  {
    if n == 0 then false
    else
      var e := run[n - 1].event;
      || (e.RegisterDriver? && e.busCode == busCode)
      || Reaches(run, busCode, n - 1)
      || (InService(run, busCode, n - 1)
          && !(e.Remove? && Drives(run, e.sid, busCode, n - 1))
          && !(e.Sweep? && LosesDriver(run, busCode, n - 1)))
  }

  /** Sweep `i` finds a driver of the bus silent. */
  ghost predicate LosesDriver(run: seq<Timed>, busCode: string, i: nat)
    requires i < |run| && run[i].event.Sweep?
    decreases i, 2
  {
    exists k :: Drives(run, k, busCode, i) && Silent(run, k, i)
  }

  /** The event opens the bus: a registration for it, or a fix for it while it is not live. */
  ghost predicate Opens(run: seq<Timed>, busCode: string, i: nat)
    requires i < |run|
  {
    || (run[i].event.RegisterDriver? && run[i].event.busCode == busCode)
    || (Reaches(run, busCode, i) && !InService(run, busCode, i))
  }

  /** Where its last fix since it was registered was. */
  ghost function LastFixAt(run: seq<Timed>, busCode: string, n: nat): Option<Point>
    requires n <= |run|
  {
    if n == 0 then None
    else if Reaches(run, busCode, n - 1) then Some(run[n - 1].event.at)
    else if run[n - 1].event.RegisterDriver? && run[n - 1].event.busCode == busCode then None
    else LastFixAt(run, busCode, n - 1)
  }

  /** Who opened the bus. */
  ghost function Operator(run: seq<Timed>, busCode: string, n: nat): string
    requires n <= |run|
  {
    if n == 0 then ""
    else if Opens(run, busCode, n - 1) then
      var e := run[n - 1].event;
      if e.RegisterDriver? then e.driverId else NameOf(run, e.sid, n - 1)
    else Operator(run, busCode, n - 1)
  }

  /** The last word on whether the bus is to be shown; it is when opened. */
  ghost function LastShown(run: seq<Timed>, busCode: string, n: nat): bool
    requires n <= |run|
  {
    if n == 0 then true
    else
      var e := run[n - 1].event;
      if Reaches(run, busCode, n - 1) && e.visible.Some? then e.visible.value
      else if Opens(run, busCode, n - 1) then true
      else if e.DriverVisibility? && e.driverId == Operator(run, busCode, n - 1) then e.shown
      else LastShown(run, busCode, n - 1)
  }

  ghost function LastAccuracy(run: seq<Timed>, busCode: string, n: nat): Option<real>
    requires n <= |run|
  {
    if n == 0 then None
    else
      var e := run[n - 1].event;
      if Reaches(run, busCode, n - 1) && e.accuracy.Some? then e.accuracy
      else if Opens(run, busCode, n - 1) then None
      else LastAccuracy(run, busCode, n - 1)
  }

  ghost function LastOccupancy(run: seq<Timed>, busCode: string, n: nat): Option<Occupancy>
    requires n <= |run|
  {
    if n == 0 then None
    else
      var e := run[n - 1].event;
      if Opens(run, busCode, n - 1) then None
      else if e.ReportOccupancy? && Drives(run, e.sid, busCode, n - 1) then Some(e.level)
      else LastOccupancy(run, busCode, n - 1)
  }

  ghost function LastSign(run: seq<Timed>, busCode: string, n: nat): int
    requires n <= |run|
  {
    if n == 0 then 0
    else if Opens(run, busCode, n - 1) || Reaches(run, busCode, n - 1) then run[n - 1].now
    else LastSign(run, busCode, n - 1)
  }

  // ---- Alerts ------------------------------------------------------------------------------

  /** Call `n` for alerts tells the rider: their bus is live, to be shown and close, and it has been a while. */
  ghost predicate Told(d: Distance, run: seq<Timed>, sid: string, n: nat)
    requires n < |run|
    decreases n, 1
  {
    var place, bus := LastPlace(run, sid, n), LastTracked(run, sid, n);
    && run[n].event.Alerts?
    && Present(run, sid, n) && ClientOf(run, sid, n) == User
    && place.Some? && bus.Some? && InService(run, bus.value, n) && LastShown(run, bus.value, n)
    && run[n].now - LastTold(d, run, sid, n) >= 120_000
    && var fix := LastFixAt(run, bus.value, n);
    fix.Some? && d(place.value, fix.value) <= 0.5
  }

  /** When they were last told, since they registered; the clock's zero if never. */
  ghost function LastTold(d: Distance, run: seq<Timed>, sid: string, n: nat): int
    requires n <= |run|
    decreases n, 0
  {
    if n == 0 then 0
    else if Enters(run[n - 1].event, sid) then 0
    else if Told(d, run, sid, n - 1) then run[n - 1].now
    else LastTold(d, run, sid, n - 1)
  }

  // ---- One step --------------------------------------------------------------------------------

  lemma SessionStep(d: Distance, r: Registry, now: int, e: Event, sid: string)
    ensures var q := Step(d, r, now, e);
      && (sid in q.sessions <==>
            || Enters(e, sid)
            || (sid in r.sessions && !(e.Remove? && e.sid == sid)
                && !(e.Sweep? && r.sessions[sid].lastSeen < now - e.timeoutMs)))
      && (Enters(e, sid) ==>
            var s := q.sessions[sid];
            && s.client == (if e.RegisterDriver? then Driver(e.busCode) else User)
            && s.clientId == (if e.RegisterDriver? then e.driverId else e.userId)
            && s.tracking == None && s.subscribed == None && s.coords == None && s.lastSeen == now && s.lastAlert == 0)
      && (sid in q.sessions && !Enters(e, sid) ==> StaysOn(d, r, now, e, sid, r.sessions[sid], q.sessions[sid]))
  {
    hide Due, Retired, NewBus, PingedBus;
  }

  /** The session `o` on the connection has become `s`. */
  ghost predicate StaysOn(d: Distance, r: Registry, now: int, e: Event, sid: string, o: Session, s: Session) {
    && s.client == o.client && s.clientId == o.clientId
    && s.tracking == (if e.TrackBus? && e.sid == sid then Some(e.busCode) else o.tracking)
    && s.subscribed == (if e.SubscribeRoute? && e.sid == sid && o.client.User? then e.route else o.subscribed)
    && s.coords == (if Places(e, sid, o.client) then Some(e.at) else o.coords)
    && var inService := o.client.Driver? && o.client.busCode in r.buses;
    && s.lastSeen == (if Speaks(e, sid, o.client, inService) then now else o.lastSeen)
    && s.lastAlert == (if e.Alerts? && Due(d, r, now, sid) then now else o.lastAlert)
  }

  /** A driver of the bus has not been heard from since the cutoff. */
  ghost predicate Overdue(r: Registry, now: int, timeoutMs: int, sid: string, busCode: string) {
    Backs(r, sid, busCode) && r.sessions[sid].lastSeen < now - timeoutMs
  }

  ghost predicate SomeOverdue(r: Registry, now: int, timeoutMs: int, busCode: string) {
    exists k :: Overdue(r, now, timeoutMs, k, busCode)
  }

  lemma BusStep(d: Distance, r: Registry, now: int, e: Event, b: string)
    ensures var q, reached := Step(d, r, now, e), e.DriverLocation? && IsInside(e.at) && Backs(r, e.sid, b);
      && (b in q.buses <==>
            || (e.RegisterDriver? && e.busCode == b) || reached
            || (b in r.buses && !(e.Remove? && Backs(r, e.sid, b))
                && !(e.Sweep? && SomeOverdue(r, now, e.timeoutMs, b))))
      && (e.RegisterDriver? && e.busCode == b ==> Opened(q.buses[b], e.driverId, now, None, true, None))
      && (reached && b !in r.buses ==>
            Opened(q.buses[b], r.sessions[e.sid].clientId, now, e.accuracy, e.visible.Some? ==> e.visible.value,
                   Some(e.at)))
      && (b in q.buses && b in r.buses && !(e.RegisterDriver? && e.busCode == b) ==>
            StaysInService(r, now, e, b, r.buses[b], q.buses[b]))
  {
    hide Due;
    if e.Sweep? {
      if Retired(r, now, e.timeoutMs, b) {
        var k :| k in r.sessions && Stale(r, now, e.timeoutMs, k) && r.sessions[k].client == Driver(b);
        assert Overdue(r, now, e.timeoutMs, k, b);
      }
    }
  }

  /** Where the bus was at its last fix. */
  function LatestAt(v: BusView): Option<Point> {
    if v.recent == [] then None else Some(v.recent[|v.recent| - 1].at)
  }

  ghost predicate Opened(v: BusView, driverId: string, now: int, accuracy: Option<real>, visible: bool,
                         at: Option<Point>) {
    && v.driverId == driverId && v.lastSeen == now && v.accuracy == accuracy && v.visible == visible
    && v.occupancy == None && LatestAt(v) == at
  }

  /** The live bus `o` has become `v`. */
  ghost predicate StaysInService(r: Registry, now: int, e: Event, b: string, o: BusView, v: BusView) {
    var reached := e.DriverLocation? && IsInside(e.at) && Backs(r, e.sid, b);
    && v.driverId == o.driverId
    && v.lastSeen == (if reached then now else o.lastSeen)
    && LatestAt(v) == (if reached then Some(e.at) else LatestAt(o))
    && v.accuracy == (if reached && e.accuracy.Some? then e.accuracy else o.accuracy)
    && v.occupancy == (if e.ReportOccupancy? && Backs(r, e.sid, b) then Some(e.level) else o.occupancy)
    && v.visible == (if reached && e.visible.Some? then e.visible.value
                     else if e.DriverVisibility? && e.driverId == o.driverId then e.shown
                     else o.visible)
  }

  // ---- Whole runs --------------------------------------------------------------------------------

  /** There is a session exactly for those present, and it holds what its connection last said since it registered. */
  lemma {:induction false} SessionsOverRuns(d: Distance, run: seq<Timed>, sid: string, n: nat)
    requires n <= |run|
    ensures sid in After(d, run, n).sessions <==> Present(run, sid, n)
    ensures Present(run, sid, n) ==>
      var s := After(d, run, n).sessions[sid];
      && s.client == ClientOf(run, sid, n) && s.clientId == NameOf(run, sid, n)
      && s.tracking == LastTracked(run, sid, n) && s.subscribed == LastSubscribed(run, sid, n)
      && s.coords == LastPlace(run, sid, n) && s.lastSeen == LastHeard(run, sid, n)
    decreases n, 0, 0
  {
    hide Step, Due, Places, InService;
    if n > 0 {
      SessionStep(d, After(d, run, n - 1), run[n - 1].now, run[n - 1].event, sid);
      SessionsOverRuns(d, run, sid, n - 1);
      var client := ClientOf(run, sid, n - 1);
      if client.Driver? {
        ServiceOverRuns(d, run, client.busCode, n - 1);
      }
    }
  }

  lemma {:induction false} DriversOverRuns(d: Distance, run: seq<Timed>, sid: string, b: string, n: nat)
    requires n <= |run|
    ensures Backs(After(d, run, n), sid, b) <==> Drives(run, sid, b, n)
    decreases n, 1, 0
  {
    hide After;
    SessionsOverRuns(d, run, sid, n);
  }

  lemma {:induction false} ServiceOverRuns(d: Distance, run: seq<Timed>, b: string, n: nat)
    requires n <= |run|
    ensures b in After(d, run, n).buses <==> InService(run, b, n)
    decreases n, 2, 0
  {
    hide Step, Due, Backs, Drives, Silent, SomeOverdue, LosesDriver, StaysInService, Opened;
    if n > 0 {
      var r, now, e := After(d, run, n - 1), run[n - 1].now, run[n - 1].event;
      BusStep(d, r, now, e, b);
      ServiceOverRuns(d, run, b, n - 1);
      if e.Remove? || e.DriverLocation? {
        DriversOverRuns(d, run, e.sid, b, n - 1);
      }
      if e.Sweep? {
        LossOverRuns(d, run, b, n - 1);
      }
    }
  }

  lemma {:induction false} LossOverRuns(d: Distance, run: seq<Timed>, b: string, i: nat)
    requires i < |run| && run[i].event.Sweep?
    ensures SomeOverdue(After(d, run, i), run[i].now, run[i].event.timeoutMs, b) <==> LosesDriver(run, b, i)
    decreases i, 1, 1
  {
    hide Step, After, Drives, Silent, Overdue;
    var r, now, timeoutMs := After(d, run, i), run[i].now, run[i].event.timeoutMs;
    forall k
      ensures Overdue(r, now, timeoutMs, k, b) <==> Drives(run, k, b, i) && Silent(run, k, i)
    {
      SilentOverRuns(d, run, k, b, i);
    }
  }

  lemma {:induction false} SilentOverRuns(d: Distance, run: seq<Timed>, sid: string, b: string, i: nat)
    requires i < |run| && run[i].event.Sweep?
    ensures Overdue(After(d, run, i), run[i].now, run[i].event.timeoutMs, sid, b) <==>
            Drives(run, sid, b, i) && Silent(run, sid, i)
    decreases i, 1, 0
  {
    hide After;
    SessionsOverRuns(d, run, sid, i);
  }

  /** There is a live bus exactly for those in service, and it holds what was last said about it since it was opened. */
  lemma {:induction false} BusesOverRuns(d: Distance, run: seq<Timed>, b: string, n: nat)
    requires n <= |run|
    ensures b in After(d, run, n).buses <==> InService(run, b, n)
    ensures InService(run, b, n) ==>
      var v := After(d, run, n).buses[b];
      && v.driverId == Operator(run, b, n) && v.visible == LastShown(run, b, n)
      && v.accuracy == LastAccuracy(run, b, n) && v.occupancy == LastOccupancy(run, b, n)
      && v.lastSeen == LastSign(run, b, n) && LatestAt(v) == LastFixAt(run, b, n)
  {
    hide Step, InService, Drives, Backs, LatestAt;
    ServiceOverRuns(d, run, b, n);
    if n > 0 {
      var r, e := After(d, run, n - 1), run[n - 1].event;
      BusStep(d, r, run[n - 1].now, e, b);
      BusesOverRuns(d, run, b, n - 1);
      if e.DriverLocation? || e.ReportOccupancy? {
        DriversOverRuns(d, run, e.sid, b, n - 1);
        if Drives(run, e.sid, b, n - 1) {
          DriverName(d, run, e.sid, b, n - 1);
        }
      }
      if InService(run, b, n) {
        ServiceBefore(run, b, n);
      }
    } else {
      NoService(run, b);
    }
  }

  lemma NoService(run: seq<Timed>, b: string)
    ensures !InService(run, b, 0)
  {
  }

  lemma {:induction false} ServiceBefore(run: seq<Timed>, b: string, n: nat)
    requires 0 < n <= |run| && InService(run, b, n)
    ensures Opens(run, b, n - 1) || InService(run, b, n - 1)
  {
  }

  lemma {:induction false} DriverName(d: Distance, run: seq<Timed>, sid: string, b: string, n: nat)
    requires n <= |run| && Drives(run, sid, b, n)
    ensures Backs(After(d, run, n), sid, b) && After(d, run, n).sessions[sid].clientId == NameOf(run, sid, n)
  {
    hide After;
    SessionsOverRuns(d, run, sid, n);
  }

  // ---- Alerts over runs ----------------------------------------------------------------------------

  lemma {:induction false} ToldOverRuns(d: Distance, run: seq<Timed>, sid: string, n: nat)
    requires n <= |run| && sid in After(d, run, n).sessions
    ensures After(d, run, n).sessions[sid].lastAlert == LastTold(d, run, sid, n)
    decreases n, 0
  {
    hide Step, Due, Told;
    SessionStep(d, After(d, run, n - 1), run[n - 1].now, run[n - 1].event, sid);
    if !Enters(run[n - 1].event, sid) {
      ToldOverRuns(d, run, sid, n - 1);
      if run[n - 1].event.Alerts? {
        DueOverRuns(d, run, sid, n - 1);
      } else if Told(d, run, sid, n - 1) {
        ToldByAlerts(d, run, sid, n - 1);
      }
    }
  }

  lemma {:induction false} ToldByAlerts(d: Distance, run: seq<Timed>, sid: string, n: nat)
    requires n < |run| && Told(d, run, sid, n)
    ensures run[n].event.Alerts?
  {
  }

  /** A rider is due exactly when the events of the run say so. */
  lemma {:induction false} DueOverRuns(d: Distance, run: seq<Timed>, sid: string, n: nat)
    requires n < |run| && run[n].event.Alerts?
    ensures Due(d, After(d, run, n), run[n].now, sid) <==> Told(d, run, sid, n)
    decreases n, 1
  {
    hide Step, After, InService, Present;
    SessionsOverRuns(d, run, sid, n);
    if Present(run, sid, n) {
      ToldOverRuns(d, run, sid, n);
      var bus := LastTracked(run, sid, n);
      if bus.Some? {
        BusesOverRuns(d, run, bus.value, n);
      }
    }
  }

  /**
   * A call for alerts tells exactly the riders whose tracked bus is live, to be shown and, at its last fix, within
   * 500 m of their last position, and who have not been told in the last two minutes; each hears of that bus at that
   * distance.
   */
  lemma {:induction false} AlertsOverRuns(d: Distance, run: seq<Timed>, n: nat, alerts: seq<ProximityAlert>)
    requires n < |run| && run[n].event.Alerts? && Tells(d, After(d, run, n), run[n].now, {}, alerts)
    ensures forall sid :: (exists a :: a in alerts && a.sessionId == sid) <==> Told(d, run, sid, n)
    ensures forall a :: a in alerts ==>
      var place, fix := LastPlace(run, a.sessionId, n), LastFixAt(run, a.busCode, n);
      && LastTracked(run, a.sessionId, n) == Some(a.busCode)
      && place.Some? && fix.Some? && a.distanceKm == d(place.value, fix.value)
    ensures forall i, j :: 0 <= i < j < |alerts| ==> alerts[i].sessionId != alerts[j].sessionId
  {
    hide Step, After, Due, Told, LastFixAt;
    var r, now := After(d, run, n), run[n].now;
    forall sid
      ensures (exists a :: a in alerts && a.sessionId == sid) <==> Told(d, run, sid, n)
    {
      DueOverRuns(d, run, sid, n);
      if Due(d, r, now, sid) {
        assert AlertOf(d, r, now, sid) in alerts;
      }
    }
    forall a | a in alerts
      ensures var place, fix := LastPlace(run, a.sessionId, n), LastFixAt(run, a.busCode, n);
        && LastTracked(run, a.sessionId, n) == Some(a.busCode)
        && place.Some? && fix.Some? && a.distanceKm == d(place.value, fix.value)
    {
      AlertSays(d, run, n, a.sessionId);
    }
  }

  lemma {:induction false} AlertSays(d: Distance, run: seq<Timed>, n: nat, sid: string)
    requires n < |run| && Due(d, After(d, run, n), run[n].now, sid)
    ensures var a := AlertOf(d, After(d, run, n), run[n].now, sid);
      var place, fix := LastPlace(run, sid, n), LastFixAt(run, a.busCode, n);
      && LastTracked(run, sid, n) == Some(a.busCode)
      && place.Some? && fix.Some? && a.distanceKm == d(place.value, fix.value)
  {
    hide Step, After, LastFixAt, InService, Present;
    SessionsOverRuns(d, run, sid, n);
    BusesOverRuns(d, run, LastTracked(run, sid, n).value, n);
  }

  // ---- Cards -----------------------------------------------------------------------------------------

  /** What riders are shown of a live bus is the last word on it, and the speed of its last sixty fixes. */
  lemma {:induction false} CardsOverRuns(d: Distance, run: seq<Timed>, b: string, n: nat)
    requires n <= |run| && b in After(d, run, n).buses
    ensures var card, fixes := CardOf(d, b, After(d, run, n).buses[b]), Fixes(d, run, b, n);
      && card.busId == b && card.driverId == Operator(run, b, n) && card.coords == LastFixAt(run, b, n)
      && card.accuracy == LastAccuracy(run, b, n) && card.visible == LastShown(run, b, n)
      && card.occupancy == LastOccupancy(run, b, n) && card.lastSeen == LastSign(run, b, n)
      && card.mark == After(d, run, n).buses[b].mark
      && var speed := Speed(d, if |fixes| <= 60 then fixes else fixes[|fixes| - 60..]);
      if speed.None? then card.speedKmh == None
      else card.speedKmh.Some? && speed.value - 0.05 < card.speedKmh.value <= speed.value + 0.05
  {
    hide Step, After, Speed, Fixes, Operator, LastAccuracy, LastShown, LastOccupancy, LastSign, LastFixAt, InService;
    BusesOverRuns(d, run, b, n);
    HistoryOverRuns(d, run, b, n);
  }

  /** Riders are shown exactly the buses in service that are to be shown and have sent a fix. */
  lemma {:induction false} FleetOverRuns(d: Distance, run: seq<Timed>, n: nat, cards: seq<BusCard>)
    requires n <= |run| && ShowsFleet(d, After(d, run, n), {}, cards)
    ensures forall b :: (exists c :: c in cards && c.busId == b) <==>
              InService(run, b, n) && LastShown(run, b, n) && LastFixAt(run, b, n).Some?
  {
    hide Step, After, InService, LastShown, LastFixAt, Speed;
    forall b
      ensures (exists c :: c in cards && c.busId == b) <==>
                InService(run, b, n) && LastShown(run, b, n) && LastFixAt(run, b, n).Some?
    {
      BusesOverRuns(d, run, b, n);
      if InSight(After(d, run, n), b) {
        assert CardOf(d, b, After(d, run, n).buses[b]) in cards;
      }
    }
  }
}
