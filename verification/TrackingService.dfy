/** The registry as the program keeps it: maps of session and bus objects, updated in place. */
module TrackingService {
  import opened Geo
  import opened Options
  import opened LiveBus
  import opened Tracking

  class ClientSession {
    const sessionId: string
    const client: Client
    const clientId: string
    ghost const id: nat
    var tracking: Option<string>
    var subscribed: Option<int>
    var coords: Option<Point>
    var lastSeen: int
    var lastProximityAlert: int

    constructor (sessionId: string, client: Client, clientId: string, now: int, ghost id: nat)
      ensures this.sessionId == sessionId && View() == NewSession(id, client, clientId, now)
    {
      this.sessionId, this.client, this.clientId, this.id := sessionId, client, clientId, id;
      tracking, subscribed, coords, lastSeen, lastProximityAlert := None, None, None, now, 0;
    }

    ghost function View(): Session
      reads this
    {
      Session(id, client, clientId, tracking, subscribed, coords, lastSeen, lastProximityAlert)
    }
  }

  datatype ProximityAlert = ProximityAlert(sessionId: string, busCode: string, distanceKm: real)

  /** The alert a due rider gets. */
  function AlertOf(d: Distance, r: Registry, now: int, sid: string): ProximityAlert
    requires Due(d, r, now, sid)
  {
    var s := r.sessions[sid];
    var b := r.buses[s.tracking.value];
    ProximityAlert(sid, s.tracking.value, d(s.coords.value, b.recent[|b.recent| - 1].at))
  }

  /** What riders are shown of a bus. */
  datatype BusCard = BusCard(busId: string, driverId: string, coords: Option<Point>, speedKmh: Option<real>,
                             accuracy: Option<real>, visible: bool, lastSeen: int, occupancy: Option<Occupancy>,
                             mark: RouteMark)

  function CardOf(d: Distance, busCode: string, b: BusView): BusCard {
    var speed := Speed(d, b.recent);
    BusCard(busCode, b.driverId, if b.recent == [] then None else Some(b.recent[|b.recent| - 1].at),
            if speed.None? then None else Some(Round1(speed.value)),
            b.accuracy, b.visible, b.lastSeen, b.occupancy, b.mark)
  }

  /** The card after a fix shows that fix, and a speed only if it is a plausible one. */
  lemma FixIsShown(d: Distance, r: Registry, now: int, sid: string, at: Point, accuracy: Option<real>,
                   visible: Option<bool>)
    requires IsDriver(r, sid) && IsValid(at)
    ensures var s, code := Step(d, r, now, DriverLocation(sid, at, accuracy, visible)), r.sessions[sid].client.busCode;
      && code in s.buses
      && var card := CardOf(d, code, s.buses[code]);
      && card.busId == code && card.coords == Some(at) && card.lastSeen == now
      && (accuracy.Some? ==> card.accuracy == accuracy) && (visible.Some? ==> card.visible == visible.value)
      && (card.speedKmh.Some? ==> 0.0 <= card.speedKmh.value <= MAX_PLAUSIBLE_SPEED_KMH)
  {
    hide Speed;
    LocationNoted(d, r, now, sid, at, accuracy, visible);
    var s, code := Step(d, r, now, DriverLocation(sid, at, accuracy, visible)), r.sessions[sid].client.busCode;
    var recent := s.buses[code].recent;
    if Speed(d, recent).Some? {
      var slow, fast := SpeedIsHonest(d, recent);
      RoundedInRange(Speed(d, recent).value);
    }
  }

  lemma RoundedInRange(v: real)
    requires 0.0 <= v <= 120.0
    ensures 0.0 <= Round1(v) <= 120.0
  {
  }

  class LiveTrackingService {
    const distance: Distance
    var sessions: map<string, ClientSession>
    var liveBuses: map<string, LiveBusState>
    ghost var next: nat

    constructor (distance: Distance)
      ensures Valid() && View() == EMPTY && this.distance == distance
      ensures fresh(Objects())
    {
      this.distance, sessions, liveBuses, next := distance, map[], map[], 0;
    }

    ghost function Objects(): set<object>
      reads this`sessions, this`liveBuses
    {
      sessions.Values + liveBuses.Values
    }

    /** Every object sits under its own key, so no two keys share one. */
    ghost predicate Valid()
      reads this`sessions, this`liveBuses
    {
      && (forall k :: k in sessions ==> sessions[k].sessionId == k)
      && (forall b :: b in liveBuses ==> liveBuses[b].busCode == b)
    }

    ghost function SessionViews(): (views: map<string, Session>)
      reads this`sessions, sessions.Values
      ensures views.Keys == sessions.Keys
    {
      map k | k in sessions :: sessions[k].View()
    }

    ghost function BusViews(): (views: map<string, BusView>)
      reads this`liveBuses, liveBuses.Values
      ensures views.Keys == liveBuses.Keys
    {
      map b | b in liveBuses :: liveBuses[b].View()
    }

    ghost function View(): Registry
      reads this, Objects()
    {
      Registry(SessionViews(), BusViews(), next)
    }

    // ---- Single updates ---------------------------------------------------------

    method PutSession(session: ClientSession)
      requires Valid()
      modifies this`sessions
      ensures sessions == old(sessions)[session.sessionId := session]
      ensures sessions.Values <= old(sessions.Values) + {session} && Objects() <= old(Objects()) + {session}
      ensures Valid()
      ensures SessionViews() == old(SessionViews())[session.sessionId := session.View()]
    {
      sessions := sessions[session.sessionId := session];
    }

    method PutBus(bus: LiveBusState)
      requires Valid()
      modifies this`liveBuses
      ensures liveBuses == old(liveBuses)[bus.busCode := bus]
      ensures liveBuses.Values <= old(liveBuses.Values) + {bus} && Objects() <= old(Objects()) + {bus}
      ensures Valid()
      ensures BusViews() == old(BusViews())[bus.busCode := bus.View()]
    {
      liveBuses := liveBuses[bus.busCode := bus];
    }

    method DropSession(sessionId: string)
      requires Valid()
      modifies this`sessions
      ensures sessions == map k | k in old(sessions) && k != sessionId :: old(sessions)[k]
      ensures sessions.Values <= old(sessions.Values)
      ensures Valid()
      ensures SessionViews() == map k | k in old(SessionViews()) && k != sessionId :: old(SessionViews())[k]
    {
      sessions := map k | k in sessions && k != sessionId :: sessions[k];
    }

    method DropBus(code: string)
      requires Valid()
      modifies this`liveBuses
      ensures liveBuses.Values <= old(liveBuses.Values)
      ensures Valid()
      ensures BusViews() == map b | b in old(BusViews()) && b != code :: old(BusViews())[b]
    {
      liveBuses := map b | b in liveBuses && b != code :: liveBuses[b];
    }

    lemma SessionAt(sessionId: string)
      requires sessionId in sessions
      ensures SessionViews()[sessionId] == sessions[sessionId].View()
    {
    }

    lemma KeyOf(sessionId: string)
      requires Valid() && sessionId in sessions
      ensures sessions[sessionId].sessionId == sessionId
    {
    }

    lemma BusAt(code: string)
      requires code in liveBuses
      ensures BusViews()[code] == liveBuses[code].View()
    {
    }

    /** Notes where and when a session was heard from. */
    method Heard(now: int, sessionId: string, at: Option<Point>)
      requires Valid() && sessionId in sessions
      modifies sessions[sessionId]
      ensures Valid() && BusViews() == old(BusViews())
      ensures var s := old(SessionViews())[sessionId];
        SessionViews() == old(SessionViews())[sessionId :=
          s.(coords := if at.Some? then at else s.coords, lastSeen := now)]
    {
      var session := sessions[sessionId];
      if at.Some? {
        session.coords := at;
      }
      session.lastSeen := now;
    }

    method PingBus(now: int, code: string, at: Point, accuracy: Option<real>, visible: Option<bool>)
      requires Valid() && code in liveBuses
      modifies liveBuses[code]
      ensures Valid() && SessionViews() == old(SessionViews())
      ensures BusViews() == old(BusViews())[code := PingedBus(old(BusViews())[code], at, now, accuracy, visible)]
    {
      liveBuses[code].Ping(now, at, accuracy, visible);
    }

    method ShowBus(code: string, visible: bool)
      requires Valid() && code in liveBuses
      modifies liveBuses[code]
      ensures Valid() && SessionViews() == old(SessionViews())
      ensures BusViews() == old(BusViews())[code := old(BusViews())[code].(visible := visible)]
    {
      liveBuses[code].visible := visible;
    }

    method FillBus(code: string, level: Occupancy)
      requires Valid() && code in liveBuses
      modifies liveBuses[code]
      ensures Valid() && SessionViews() == old(SessionViews())
      ensures BusViews() == old(BusViews())[code := old(BusViews())[code].(occupancy := Some(level))]
    {
      liveBuses[code].occupancy := Some(level);
    }

    method MarkAlerted(now: int, sessionId: string)
      requires Valid() && sessionId in sessions
      modifies sessions[sessionId]
      ensures Valid() && BusViews() == old(BusViews())
      ensures SessionViews() == old(SessionViews())[sessionId := old(SessionViews())[sessionId].(lastAlert := now)]
    {
      sessions[sessionId].lastProximityAlert := now;
    }

    method OpenSession(now: int, sessionId: string, client: Client, clientId: string) returns (session: ClientSession)
      requires Valid()
      modifies this`sessions, this`next
      ensures Valid() && fresh(session) && Objects() <= old(Objects()) + {session}
      ensures sessionId in sessions && session == sessions[sessionId]
      ensures SessionViews() == old(SessionViews())[sessionId := NewSession(old(next), client, clientId, now)]
      ensures BusViews() == old(BusViews()) && next == old(next) + 1
    {
      hide SessionViews, BusViews, Valid, Objects, NewSession;
      session := new ClientSession(sessionId, client, clientId, now, next);
      PutSession(session);
      next := next + 1;
    }

    method OpenBus(now: int, code: string, driverId: string, mark: RouteMark) returns (bus: LiveBusState)
      requires Valid()
      modifies this`liveBuses
      ensures Valid() && fresh(bus) && liveBuses.Values <= old(liveBuses.Values) + {bus}
      ensures Objects() <= old(Objects()) + {bus}
      ensures code in liveBuses && bus == liveBuses[code]
      ensures BusViews() == old(BusViews())[code := NewBus(driverId, mark, now)]
      ensures SessionViews() == old(SessionViews())
    {
      hide SessionViews, BusViews, Valid, Objects, NewBus;
      bus := new LiveBusState(code, driverId, mark, now);
      PutBus(bus);
    }

    /** A driver that pings after its bus was retired gets it back, without its route. */
    method EnsureBus(now: int, code: string, driverId: string)
      requires Valid()
      modifies this`liveBuses
      ensures Valid() && code in liveBuses
      ensures if code in old(liveBuses) then liveBuses == old(liveBuses)
              else fresh(liveBuses[code]) && liveBuses.Values <= old(liveBuses.Values) + {liveBuses[code]}
      ensures SessionViews() == old(SessionViews())
      ensures BusViews() == if code in old(liveBuses) then old(BusViews())
                            else old(BusViews())[code := NewBus(driverId, UNMARKED, now)]
    {
      hide SessionViews, BusViews, Valid;
      if code !in liveBuses {
        var bus := OpenBus(now, code, driverId, UNMARKED);
      }
    }

    method SetTracking(sessionId: string, busCode: string)
      requires Valid() && sessionId in sessions
      modifies sessions[sessionId]
      ensures Valid() && BusViews() == old(BusViews())
      ensures SessionViews() ==
              old(SessionViews())[sessionId := old(SessionViews())[sessionId].(tracking := Some(busCode))]
    {
      sessions[sessionId].tracking := Some(busCode);
    }

    method SetSubscribed(sessionId: string, routeNumber: Option<int>)
      requires Valid() && sessionId in sessions
      modifies sessions[sessionId]
      ensures Valid() && BusViews() == old(BusViews())
      ensures SessionViews() ==
              old(SessionViews())[sessionId := old(SessionViews())[sessionId].(subscribed := routeNumber)]
    {
      sessions[sessionId].subscribed := routeNumber;
    }

    // ---- Session lifecycle ------------------------------------------------------

    method RegisterDriver(now: int, sessionId: string, driverId: string, busCode: string, mark: RouteMark)
      returns (session: ClientSession)
      requires Valid()
      modifies this
      ensures Valid() && fresh(Objects() - old(Objects()))
      ensures View() == Step(distance, old(View()), now, Event.RegisterDriver(sessionId, driverId, busCode, mark))
      ensures sessionId in sessions && session == sessions[sessionId]
    {
      hide SessionViews, BusViews, Valid, Step, Objects, NewBus, NewSession;
      session := OpenSession(now, sessionId, Driver(busCode), driverId);
      var bus := OpenBus(now, busCode, driverId, mark);
      DriverRegistered(distance, old(View()), now, sessionId, driverId, busCode, mark);
    }

    method RegisterUser(now: int, sessionId: string, userId: string) returns (session: ClientSession)
      requires Valid()
      modifies this
      ensures Valid() && fresh(Objects() - old(Objects()))
      ensures View() == Step(distance, old(View()), now, Event.RegisterUser(sessionId, userId))
      ensures sessionId in sessions && session == sessions[sessionId]
    {
      hide SessionViews, BusViews, Valid, Step, Objects, NewSession;
      session := OpenSession(now, sessionId, User, userId);
      UserRegistered(distance, old(View()), now, sessionId, userId);
    }

    /** Removes the session; if it was a driver, also retires their bus. */
    method RemoveSession(sessionId: string) returns (removed: Option<ClientSession>)
      requires Valid()
      modifies this`sessions, this`liveBuses
      ensures Valid() && Objects() <= old(Objects())
      ensures View() == Removed(old(View()), sessionId)
      ensures removed == if sessionId in old(sessions) then Some(old(sessions)[sessionId]) else None
      ensures sessions == map k | k in old(sessions) && k != sessionId :: old(sessions)[k]
    {
      hide SessionViews, BusViews, Valid, Removed;
      RemovedFrom(View(), sessionId);
      if sessionId !in sessions {
        return None;
      }
      SessionAt(sessionId);
      removed := Some(sessions[sessionId]);
      DropSession(sessionId);
      if removed.value.client.Driver? {
        DropBus(removed.value.client.busCode);
      }
    }

    // ---- Telemetry ---------------------------------------------------------------

    method ToCard(code: string) returns (card: BusCard)
      requires code in liveBuses
      ensures code in View().buses && card == CardOf(distance, code, View().buses[code])
    {
      hide Speed, SessionViews;
      var state := liveBuses[code];
      var speed := state.SpeedKmh(distance);
      card := BusCard(code, state.driverId,
                      if state.recent == [] then None else Some(state.recent[|state.recent| - 1].at),
                      if speed.None? then None else Some(Round1(speed.value)),
                      state.accuracy, state.visible, state.lastSeen, state.occupancy,
                      RouteMark(state.routeNumber, state.routeColor));
      BusAt(code);
    }

    /** Enters a fix into the driver's session and into the bus, which is opened anew if it has been retired. */
    method NoteFix(now: int, sessionId: string, code: string, driverId: string, at: Point, accuracy: Option<real>,
                   visible: Option<bool>)
      requires Valid() && sessionId in sessions
      modifies this`liveBuses, sessions.Values, liveBuses.Values
      ensures Valid()
      ensures code in liveBuses && (liveBuses == old(liveBuses) || fresh(liveBuses[code]))
      ensures liveBuses.Values <= old(liveBuses.Values) + {liveBuses[code]}
      ensures fresh(Objects() - old(Objects()))
      ensures var before, s := old(BusViews()), old(SessionViews())[sessionId];
        var buses := if code in before then before else before[code := NewBus(driverId, UNMARKED, now)];
        && SessionViews() == old(SessionViews())[sessionId := s.(coords := Some(at), lastSeen := now)]
        && BusViews() == buses[code := PingedBus(buses[code], at, now, accuracy, visible)]
    {
      hide SessionViews, BusViews, Valid;
      Heard(now, sessionId, Some(at));
      EnsureBus(now, code, driverId);
      PingBus(now, code, at, accuracy, visible);
    }

    /** Only a registered driver is listened to, and only within range. */
    method UpdateDriverLocation(now: int, sessionId: string, at: Point, accuracy: Option<real>, visible: Option<bool>)
      returns (card: Option<BusCard>)
      requires Valid()
      modifies this`liveBuses, sessions.Values, liveBuses.Values
      ensures Valid() && fresh(Objects() - old(Objects()))
      ensures View() == Step(distance, old(View()), now, DriverLocation(sessionId, at, accuracy, visible))
      ensures card.Some? <==> IsDriver(old(View()), sessionId) && IsValid(at)
      ensures card.Some? ==>
        var code := old(View()).sessions[sessionId].client.busCode;
        code in View().buses && card.value == CardOf(distance, code, View().buses[code])
    {
      hide SessionViews, BusViews, Valid, Step, Objects, NewBus, PingedBus, CardOf;
      LocationNoted(distance, View(), now, sessionId, at, accuracy, visible);
      if sessionId !in sessions {
        return None;
      }
      SessionAt(sessionId);
      if !sessions[sessionId].client.Driver? || !IsValid(at) {
        return None;
      }
      var code, driverId := sessions[sessionId].client.busCode, sessions[sessionId].clientId;
      NoteFix(now, sessionId, code, driverId, at, accuracy, visible);
      var shown := ToCard(code);
      card := Some(shown);
    }

    method UpdateUserLocation(now: int, sessionId: string, at: Point)
      requires Valid()
      modifies sessions.Values
      ensures Valid()
      ensures View() == Step(distance, old(View()), now, UserLocation(sessionId, at))
    {
      if sessionId in sessions && IsValid(at) {
        Heard(now, sessionId, Some(at));
      }
    }

    method Track(now: int, sessionId: string, busCode: string)
      requires Valid()
      modifies sessions.Values
      ensures Valid()
      ensures View() == Step(distance, old(View()), now, TrackBus(sessionId, busCode))
    {
      hide SessionViews, BusViews, Valid;
      if sessionId in sessions {
        SetTracking(sessionId, busCode);
        Heard(now, sessionId, None);
      }
    }

    method Subscribe(now: int, sessionId: string, routeNumber: Option<int>)
      requires Valid()
      modifies sessions.Values
      ensures Valid()
      ensures View() == Step(distance, old(View()), now, SubscribeRoute(sessionId, routeNumber))
    {
      hide SessionViews, BusViews, Valid;
      if sessionId !in sessions {
        return;
      }
      SessionAt(sessionId);
      if sessions[sessionId].client.User? {
        SetSubscribed(sessionId, routeNumber);
        Heard(now, sessionId, None);
      }
    }

    method SetOccupancy(now: int, sessionId: string, level: Occupancy) returns (card: Option<BusCard>)
      requires Valid()
      modifies Objects()
      ensures Valid()
      ensures View() == Step(distance, old(View()), now, ReportOccupancy(sessionId, level))
      ensures card.Some? <==> IsDriver(old(View()), sessionId)
                              && old(View()).sessions[sessionId].client.busCode in old(View()).buses
      ensures card.Some? ==>
        var code := old(View()).sessions[sessionId].client.busCode;
        code in View().buses && card.value == CardOf(distance, code, View().buses[code])
    {
      hide SessionViews, BusViews, Valid, Step, CardOf;
      OccupancyNoted(distance, View(), now, sessionId, level);
      if sessionId !in sessions {
        return None;
      }
      SessionAt(sessionId);
      if !sessions[sessionId].client.Driver? {
        return None;
      }
      var code := sessions[sessionId].client.busCode;
      if code !in liveBuses {
        return None;
      }
      FillBus(code, level);
      Heard(now, sessionId, None);
      var shown := ToCard(code);
      card := Some(shown);
    }

    method Ping(now: int, sessionId: string)
      requires Valid()
      modifies sessions.Values
      ensures Valid()
      ensures View() == Step(distance, old(View()), now, Touch(sessionId))
    {
      if sessionId in sessions {
        Heard(now, sessionId, None);
      }
    }

    method SetDriverVisibility(now: int, driverId: string, visible: bool)
      requires Valid()
      modifies liveBuses.Values
      ensures Valid()
      ensures View() == Step(distance, old(View()), now, DriverVisibility(driverId, visible))
    {
      hide SessionViews, BusViews, Valid, Step, Shown;
      ghost var r := View();
      var left := liveBuses.Keys;
      NobodyShown(r, driverId, visible);
      while left != {}
        invariant left <= liveBuses.Keys
        invariant Valid() && liveBuses.Keys == r.buses.Keys
        invariant View() == Shown(r, driverId, visible, left)
      {
        var code :| code in left;
        BusAt(code);
        if liveBuses[code].driverId == driverId {
          ShowBus(code, visible);
        }
        ghost var before := left;
        left := left - {code};
        assert left + {code} == before;
        NextShown(r, driverId, visible, left, code);
      }
      AllShown(distance, r, now, driverId, visible);
    }

    /** The cards of all visible buses that have sent a fix, in whatever order the map is walked. */
    method SnapshotVisibleBuses() returns (cards: seq<BusCard>)
      requires Valid()
      ensures ShowsFleet(distance, View(), {}, cards)
    {
      hide SessionViews, BusViews, Valid, ShowsFleet, CardOf;
      cards := [];
      var left := liveBuses.Keys;
      NothingShown(distance, View());
      while left != {}
        invariant left <= liveBuses.Keys
        invariant ShowsFleet(distance, View(), left, cards)
      {
        var code :| code in left;
        ghost var before := left;
        left := left - {code};
        assert left + {code} == before;
        BusAt(code);
        if liveBuses[code].visible && liveBuses[code].recent != [] {
          var card := ToCard(code);
          NextShownCard(distance, View(), left, code, cards, card);
          cards := cards + [card];
        } else {
          NextNotShown(distance, View(), left, code, cards);
        }
      }
    }

    // ---- Scheduled jobs ------------------------------------------------------------

    /** Tells each rider who is due, once, in whatever order the sessions come. */
    method PendingProximityAlerts(now: int) returns (alerts: seq<ProximityAlert>)
      requires Valid()
      modifies sessions.Values
      ensures Valid()
      ensures View() == Step(distance, old(View()), now, Alerts)
      ensures Tells(distance, old(View()), now, {}, alerts)
    {
      hide Due, Tells, Marked, Step, SessionViews, BusViews, Valid;
      alerts := [];
      var left := sessions.Keys;
      ghost var r := View();
      NobodyTold(distance, r, now);
      NobodyMarked(distance, r, now);
      while left != {}
        invariant left <= sessions.Keys
        invariant Valid() && sessions.Keys == r.sessions.Keys
        invariant View() == Marked(distance, r, now, left)
        invariant Tells(distance, r, now, left, alerts)
      {
        var k :| k in left;
        var due, code, km := CheckDue(now, k);
        SameDue(distance, r, now, left, k);
        ghost var told := alerts;
        if due {
          MarkAlerted(now, k);
          alerts := alerts + [ProximityAlert(k, code, km)];
          assert alerts[..|alerts| - 1] == told;
        }
        ghost var before := left;
        left := left - {k};
        assert left + {k} == before;
        NextTold(distance, r, now, left, k, alerts);
        NextMarked(distance, r, now, left, k);
      }
      AllMarked(distance, r, now);
    }

    /** The tests a session has to pass to be alerted, in order. */
    method CheckDue(now: int, k: string) returns (due: bool, code: string, km: real)
      requires Valid() && k in sessions
      ensures due <==> Due(distance, View(), now, k)
      ensures due ==> ProximityAlert(k, code, km) == AlertOf(distance, View(), now, k)
    {
      var session := sessions[k];
      due, code, km := false, "", 0.0;
      if session.client != User || session.coords.None? || session.tracking.None?
         || now - session.lastProximityAlert < PROXIMITY_COOLDOWN_MS {
        return;
      }
      code := session.tracking.value;
      if code !in liveBuses || !liveBuses[code].visible {
        return;
      }
      var state := liveBuses[code];
      if state.recent == [] {
        return;
      }
      km := distance(session.coords.value, state.recent[|state.recent| - 1].at);
      due := km <= PROXIMITY_THRESHOLD_KM;
    }

    /** Removes every session not heard from since the cutoff, one by one, and returns them. */
    method EvictStaleSessions(now: int, timeoutMs: int) returns (evicted: seq<ClientSession>)
      requires Valid()
      modifies this`sessions, this`liveBuses
      ensures Valid() && Objects() <= old(Objects())
      ensures View() == Step(distance, old(View()), now, Sweep(timeoutMs))
      ensures Evicts(old(sessions), StaleKeys(old(View()), now, timeoutMs), evicted)
    {
      hide SessionViews, BusViews, Without, Step, Removed, Valid, Evicts, Objects;
      var cutoff := now - timeoutMs;
      evicted := [];
      var left := sessions.Keys;
      ghost var r, gone: set<string>, sessions0 := View(), {}, sessions;
      NobodyGone(r);
      NobodyEvicted(sessions);
      while left != {}
        invariant left <= sessions.Keys && gone !! left && gone <= r.sessions.Keys
        invariant Valid() && Objects() <= old(Objects())
        invariant View() == Without(r, gone)
        invariant sessions == map k | k in sessions0 && k !in gone :: sessions0[k]
        invariant forall k :: k in r.sessions && k !in left ==> (k in gone <==> Stale(r, now, timeoutMs, k))
        invariant Evicts(sessions0, gone, evicted)
      {
        var k :| k in left;
        left := left - {k};
        SessionAt(k);
        KeyOf(k);
        StillThere(r, gone, k);
        if sessions[k].lastSeen < cutoff {
          RemovedWithout(r, gone, k);
          var removed := RemoveSession(k);
          EvictsNext(sessions0, gone, evicted, k);
          evicted := evicted + [removed.value];
          gone := gone + {k};
        }
      }
      AllSwept(distance, r, now, timeoutMs, gone);
    }
  }

  ghost function StaleKeys(r: Registry, now: int, timeoutMs: int): (keys: set<string>)
    ensures forall k :: k in keys <==> Stale(r, now, timeoutMs, k)
  {
    set k | k in r.sessions && Stale(r, now, timeoutMs, k)
  }

  /** The objects taken out so far: those of the keys in `gone`, each once. */
  ghost predicate Evicts(all: map<string, ClientSession>, gone: set<string>, evicted: seq<ClientSession>) {
    && gone <= all.Keys
    && (forall s :: s in evicted ==> s.sessionId in gone && all[s.sessionId] == s)
    && (forall k :: k in gone ==> all[k] in evicted && all[k].sessionId == k)
    && (forall i, j :: 0 <= i < j < |evicted| ==> evicted[i].sessionId != evicted[j].sessionId)
  }

  lemma NobodyEvicted(all: map<string, ClientSession>)
    ensures Evicts(all, {}, [])
  {
  }

  lemma EvictsNext(all: map<string, ClientSession>, gone: set<string>, evicted: seq<ClientSession>, k: string)
    requires Evicts(all, gone, evicted) && k in all && all[k].sessionId == k && k !in gone
    ensures Evicts(all, gone + {k}, evicted + [all[k]])
  {
  }

  // ---- The steps, written out ------------------------------------------------------

  lemma DriverRegistered(d: Distance, r: Registry, now: int, sid: string, driverId: string, busCode: string,
                         mark: RouteMark)
    ensures Step(d, r, now, Event.RegisterDriver(sid, driverId, busCode, mark)) ==
            Registry(r.sessions[sid := NewSession(r.next, Driver(busCode), driverId, now)],
                     r.buses[busCode := NewBus(driverId, mark, now)], r.next + 1)
  {
  }

  lemma RemovedFrom(r: Registry, sid: string)
    ensures Removed(r, sid) ==
            if sid !in r.sessions then r
            else
              var s := r.sessions[sid];
              Registry(map k | k in r.sessions && k != sid :: r.sessions[k],
                       if s.client.Driver? then map b | b in r.buses && b != s.client.busCode :: r.buses[b]
                       else r.buses,
                       r.next)
  {
  }

  lemma UserRegistered(d: Distance, r: Registry, now: int, sid: string, userId: string)
    ensures Step(d, r, now, Event.RegisterUser(sid, userId)) ==
            Registry(r.sessions[sid := NewSession(r.next, User, userId, now)], r.buses, r.next + 1)
  {
  }

  lemma LocationNoted(d: Distance, r: Registry, now: int, sid: string, at: Point, accuracy: Option<real>,
                      visible: Option<bool>)
    ensures Step(d, r, now, DriverLocation(sid, at, accuracy, visible)) ==
            if !IsDriver(r, sid) || !IsValid(at) then r
            else
              var s := r.sessions[sid];
              var code := s.client.busCode;
              var buses := if code in r.buses then r.buses else r.buses[code := NewBus(s.clientId, UNMARKED, now)];
              Registry(r.sessions[sid := s.(coords := Some(at), lastSeen := now)],
                       buses[code := PingedBus(buses[code], at, now, accuracy, visible)], r.next)
  {
  }

  lemma OccupancyNoted(d: Distance, r: Registry, now: int, sid: string, level: Occupancy)
    ensures Step(d, r, now, ReportOccupancy(sid, level)) ==
            if !IsDriver(r, sid) || r.sessions[sid].client.busCode !in r.buses then r
            else
              var s := r.sessions[sid];
              Registry(r.sessions[sid := s.(lastSeen := now)],
                       r.buses[s.client.busCode := r.buses[s.client.busCode].(occupancy := Some(level))], r.next)
  {
  }

  // ---- What the loops have done so far -------------------------------------------

  /** The registry once the due sessions outside `left` carry the time of their alert. */
  ghost function Marked(d: Distance, r: Registry, now: int, left: set<string>): Registry {
    r.(sessions := map k | k in r.sessions ::
         if k !in left && Due(d, r, now, k) then r.sessions[k].(lastAlert := now) else r.sessions[k])
  }

  /** The alerts so far: one each for the due sessions outside `left`, and no others. */
  ghost predicate Tells(d: Distance, r: Registry, now: int, left: set<string>, alerts: seq<ProximityAlert>) {
    && (forall a :: a in alerts ==>
          a.sessionId !in left && Due(d, r, now, a.sessionId) && a == AlertOf(d, r, now, a.sessionId))
    && (forall k :: Due(d, r, now, k) && k !in left ==> AlertOf(d, r, now, k) in alerts)
    && (forall i, j :: 0 <= i < j < |alerts| ==> alerts[i].sessionId != alerts[j].sessionId)
  }

  lemma NobodyTold(d: Distance, r: Registry, now: int)
    ensures Tells(d, r, now, r.sessions.Keys, [])
  {
  }

  lemma NobodyMarked(d: Distance, r: Registry, now: int)
    ensures Marked(d, r, now, r.sessions.Keys) == r
  {
    hide Due;
  }

  /** A session not yet handled is due in the registry as marked so far just when it was at first. */
  lemma SameDue(d: Distance, r: Registry, now: int, left: set<string>, k: string)
    requires k in left && k in r.sessions
    ensures Due(d, Marked(d, r, now, left), now, k) <==> Due(d, r, now, k)
    ensures Due(d, r, now, k) ==> AlertOf(d, Marked(d, r, now, left), now, k) == AlertOf(d, r, now, k)
  {
    assert Marked(d, r, now, left).sessions[k] == r.sessions[k];
  }

  lemma NextTold(d: Distance, r: Registry, now: int, left: set<string>, k: string, alerts: seq<ProximityAlert>)
    requires k !in left && k in r.sessions
    requires if Due(d, r, now, k) then
               alerts != [] && Tells(d, r, now, left + {k}, alerts[..|alerts| - 1])
               && alerts[|alerts| - 1] == AlertOf(d, r, now, k)
             else Tells(d, r, now, left + {k}, alerts)
    ensures Tells(d, r, now, left, alerts)
  {
    hide Due;
    if Due(d, r, now, k) {
      assert alerts == alerts[..|alerts| - 1] + [alerts[|alerts| - 1]];
    }
  }

  lemma NextMarked(d: Distance, r: Registry, now: int, left: set<string>, k: string)
    requires k !in left && k in r.sessions
    ensures var before := Marked(d, r, now, left + {k});
      Marked(d, r, now, left) ==
        if Due(d, r, now, k) then before.(sessions := before.sessions[k := before.sessions[k].(lastAlert := now)])
        else before
  {
    hide Due;
  }

  lemma AllMarked(d: Distance, r: Registry, now: int)
    ensures Marked(d, r, now, {}) == Step(d, r, now, Alerts)
  {
    hide Due;
  }

  ghost function Shown(r: Registry, driverId: string, visible: bool, left: set<string>): Registry {
    r.(buses := map b | b in r.buses ::
         if b !in left && r.buses[b].driverId == driverId then r.buses[b].(visible := visible) else r.buses[b])
  }

  lemma NobodyShown(r: Registry, driverId: string, visible: bool)
    ensures Shown(r, driverId, visible, r.buses.Keys) == r
  {
  }

  lemma NextShown(r: Registry, driverId: string, visible: bool, left: set<string>, b: string)
    requires b !in left && b in r.buses
    ensures var before := Shown(r, driverId, visible, left + {b});
      && before.buses[b] == r.buses[b]
      && Shown(r, driverId, visible, left) ==
           if r.buses[b].driverId == driverId
           then before.(buses := before.buses[b := before.buses[b].(visible := visible)])
           else before
  {
  }

  lemma AllShown(d: Distance, r: Registry, now: int, driverId: string, visible: bool)
    ensures Shown(r, driverId, visible, {}) == Step(d, r, now, DriverVisibility(driverId, visible))
  {
  }

  /** Whether riders are shown the bus. */
  predicate InSight(r: Registry, busCode: string) {
    busCode in r.buses && r.buses[busCode].visible && r.buses[busCode].recent != []
  }

  /** The cards are those of the buses in sight outside `left`, one each. */
  ghost predicate ShowsFleet(d: Distance, r: Registry, left: set<string>, cards: seq<BusCard>) {
    && (forall c :: c in cards ==>
          c.busId !in left && InSight(r, c.busId) && c == CardOf(d, c.busId, r.buses[c.busId]))
    && (forall b :: InSight(r, b) && b !in left ==> CardOf(d, b, r.buses[b]) in cards)
    && (forall i, j :: 0 <= i < j < |cards| ==> cards[i].busId != cards[j].busId)
  }

  lemma NothingShown(d: Distance, r: Registry)
    ensures ShowsFleet(d, r, r.buses.Keys, [])
  {
  }

  lemma NextShownCard(d: Distance, r: Registry, left: set<string>, code: string, cards: seq<BusCard>, card: BusCard)
    requires code !in left && InSight(r, code) && ShowsFleet(d, r, left + {code}, cards)
    requires card == CardOf(d, code, r.buses[code])
    ensures ShowsFleet(d, r, left, cards + [card])
  {
    hide Speed;
  }

  lemma NextNotShown(d: Distance, r: Registry, left: set<string>, code: string, cards: seq<BusCard>)
    requires code !in left && !InSight(r, code) && ShowsFleet(d, r, left + {code}, cards)
    ensures ShowsFleet(d, r, left, cards)
  {
    hide CardOf;
  }

  /** The registry without some sessions and the buses their drivers named. */
  ghost function Without(r: Registry, gone: set<string>): Registry {
    r.(sessions := map k | k in r.sessions && k !in gone :: r.sessions[k],
       buses := map b | b in r.buses && !Named(r, gone, b) :: r.buses[b])
  }

  ghost predicate Named(r: Registry, gone: set<string>, busCode: string) {
    exists k :: k in gone && k in r.sessions && r.sessions[k].client == Driver(busCode)
  }

  lemma NobodyGone(r: Registry)
    ensures Without(r, {}) == r
  {
  }

  lemma StillThere(r: Registry, gone: set<string>, k: string)
    requires k in r.sessions && k !in gone
    ensures k in Without(r, gone).sessions && Without(r, gone).sessions[k] == r.sessions[k]
  {
  }

  lemma RemovedWithout(r: Registry, gone: set<string>, k: string)
    requires k in r.sessions && k !in gone
    ensures Removed(Without(r, gone), k) == Without(r, gone + {k})
  {
    var s := r.sessions[k];
    forall b
      ensures Named(r, gone + {k}, b) <==> Named(r, gone, b) || s.client == Driver(b)
    {
      if s.client == Driver(b) {
        assert k in gone + {k};
      } else if Named(r, gone, b) {
        var j :| j in gone && j in r.sessions && r.sessions[j].client == Driver(b);
        assert j in gone + {k};
      }
    }
  }

  lemma AllSwept(d: Distance, r: Registry, now: int, timeoutMs: int, gone: set<string>)
    requires gone <= r.sessions.Keys
    requires forall k :: k in r.sessions ==> (k in gone <==> Stale(r, now, timeoutMs, k))
    ensures gone == StaleKeys(r, now, timeoutMs)
    ensures Without(r, gone) == Step(d, r, now, Sweep(timeoutMs))
  {
    forall b
      ensures Named(r, gone, b) <==> Retired(r, now, timeoutMs, b)
    {
      if Named(r, gone, b) {
        var k :| k in gone && k in r.sessions && r.sessions[k].client == Driver(b);
        assert Stale(r, now, timeoutMs, k);
      }
    }
  }
}
