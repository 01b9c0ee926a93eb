/** The transport as the program keeps it: open connections over the tracking service, and its announcements. */
module SocketHandler {
  import opened Options
  import opened LiveBus
  import opened Tracking
  import opened Departures
  import opened TrackingService

  /** What a verified token says; the parsing of tokens is not modelled. */
  datatype Claims = Claims(role: string, subject: string, bus: Option<string>)

  /** The route a bus serves, as the store has it. */
  datatype BusRoute = BusRoute(number: int, color: string)

  const NO_DRIVER := "Driver authentication failed. Log in again."
  const NO_BUS := "No bus is assigned to this driver account."

  /** White space to the server. */
  predicate IsSpace(c: char) {
    || c == ' ' || '\U{0009}' <= c <= '\U{000D}' || '\U{001C}' <= c <= '\U{001F}' || c == '\U{1680}'
    || '\U{2000}' <= c <= '\U{2006}' || '\U{2008}' <= c <= '\U{200A}' || c == '\U{2028}' || c == '\U{2029}'
    || c == '\U{205F}' || c == '\U{3000}'
  }

  predicate IsBlank(s: string) {
    forall c :: c in s ==> IsSpace(c)
  }

  /** What the driver is told, ... */
  datatype DriverReply = Refused(message: string) | DriverRegistered(driverId: string, busId: string)

  /** ... and what every rider is told of a new one. */
  datatype NewDriver = NewDriver(driverId: string, busId: string, timestamp: int)

  ghost function FarewellTo(s: ClientSession): Departure
    requires s.client.Driver?
  {
    Departure(s.id, s.clientId, s.client.busCode)
  }

  class BusTrackingHandler {
    const tracking: LiveTrackingService
    var open: set<string>
    ghost var announced: multiset<Departure>
    ghost var drivers: map<nat, Departure>
    ghost var overwritten: set<nat>

    constructor (tracking: LiveTrackingService)
      requires tracking.Valid() && tracking.View() == EMPTY
      ensures Valid() && View() == START && this.tracking == tracking
    {
      this.tracking, open, announced, drivers, overwritten := tracking, {}, multiset{}, map[], {};
    }

    ghost predicate Valid()
      reads this, tracking, tracking.Objects()
    {
      tracking.Valid() && this !in tracking.Objects() && Numbered(tracking.View())
    }

    ghost function View(): System
      reads this, tracking, tracking.Objects()
    {
      System(tracking.View(), open, announced, drivers, overwritten)
    }

    method AfterConnectionEstablished(now: int, sessionId: string)
      requires Valid()
      modifies this`open
      ensures Valid() && View() == Act(tracking.distance, old(View()), now, Connect(sessionId))
    {
      open := open + {sessionId};
    }

    /** The bus comes from the token, never from the message; without a driver's token nothing happens. */
    method HandleDriverRegister(now: int, sessionId: string, claims: Option<Claims>, route: Option<BusRoute>)
      returns (reply: DriverReply, notice: Option<NewDriver>)
      requires Valid()
      modifies tracking, this`drivers, this`overwritten
      ensures Valid()
      ensures reply == if claims.None? || claims.value.role != "DRIVER" then Refused(NO_DRIVER)
                       else if claims.value.bus.None? then Refused(NO_BUS)
                       else DriverReply.DriverRegistered(claims.value.subject, claims.value.bus.value)
      ensures notice == if reply.Refused? then None else Some(NewDriver(reply.driverId, reply.busId, now))
      ensures View() ==
        if reply.Refused? then old(View())
        else
          Act(tracking.distance, old(View()), now,
              Message(RegisterDriver(sessionId, claims.value.subject, claims.value.bus.value,
                                     if route.None? then RouteMark(None, None)
                                     else RouteMark(Some(route.value.number), Some(route.value.color)))))
    {
      hide Step, Numbered, LiveTrackingService.View, LiveTrackingService.Objects, LiveTrackingService.Valid;
      if claims.None? || claims.value.role != "DRIVER" {
        return Refused(NO_DRIVER), None;
      }
      if claims.value.bus.None? {
        return Refused(NO_BUS), None;
      }
      var driverId, busCode := claims.value.subject, claims.value.bus.value;
      var mark := if route.None? then UNMARKED else RouteMark(Some(route.value.number), Some(route.value.color));
      ghost var s := View();
      StepNumbered(tracking.distance, s.reg, now, RegisterDriver(sessionId, driverId, busCode, mark));
      var session := tracking.RegisterDriver(now, sessionId, driverId, busCode, mark);
      drivers := drivers[s.reg.next := Departure(s.reg.next, driverId, busCode)];
      overwritten := Overwriting(s, sessionId);
      reply, notice := DriverReply.DriverRegistered(driverId, busCode), Some(NewDriver(driverId, busCode, now));
    }

    method EnterRider(now: int, sessionId: string, userId: string)
      requires Valid()
      modifies tracking, this`overwritten
      ensures Valid()
      ensures View() == Act(tracking.distance, old(View()), now, Message(RegisterUser(sessionId, userId)))
    {
      hide Step, Numbered, LiveTrackingService.View, LiveTrackingService.Objects, LiveTrackingService.Valid;
      ghost var s := View();
      StepNumbered(tracking.distance, s.reg, now, RegisterUser(sessionId, userId));
      var session := tracking.RegisterUser(now, sessionId, userId);
      overwritten := Overwriting(s, sessionId);
    }

    /** A rider who gives no name of their own gets the generated one; they are told it and shown the fleet. */
    method HandleUserRegister(now: int, sessionId: string, userId: string, generated: string)
      returns (id: string, fleet: seq<BusCard>)
      requires Valid()
      modifies tracking, this`overwritten
      ensures Valid()
      ensures View() == Act(tracking.distance, old(View()), now,
                            Message(RegisterUser(sessionId, id)))
      ensures id == if forall c :: c in userId ==> IsSpace(c) then generated else userId
      ensures ShowsFleet(tracking.distance, tracking.View(), {}, fleet)
    {
      hide Act, Numbered, ShowsFleet, LiveTrackingService.Valid;
      id := if IsBlank(userId) then generated else userId;
      EnterRider(now, sessionId, id);
      fleet := tracking.SnapshotVisibleBuses();
    }

    /** Tells every rider that the driver has left; a rider's own leaving is not announced. */
    method AnnounceDeparture(client: ClientSession)
      modifies this`announced
      ensures announced == old(announced) + if client.client.Driver? then multiset{FarewellTo(client)} else multiset{}
    {
      if client.client.Driver? {
        announced := announced + multiset{FarewellTo(client)};
      }
    }

    method Cleanup(sessionId: string)
      requires Valid()
      modifies tracking, this`open, this`announced
      ensures Valid() && View() == Cleaned(old(View()), sessionId)
    {
      hide Numbered, Removed, LiveTrackingService.SessionViews, LiveTrackingService.BusViews;
      hide LiveTrackingService.Objects, LiveTrackingService.Valid;
      ghost var s := View();
      open := open - {sessionId};
      StepNumbered(tracking.distance, s.reg, 0, Remove(sessionId));
      if sessionId in tracking.sessions {
        tracking.SessionAt(sessionId);
      }
      var removed := tracking.RemoveSession(sessionId);
      if removed.Some? {
        AnnounceDeparture(removed.value);
      }
    }

    method HandleTransportError(now: int, sessionId: string)
      requires Valid()
      modifies tracking, this`open, this`announced
      ensures Valid() && View() == Act(tracking.distance, old(View()), now, TransportError(sessionId))
    {
      Cleanup(sessionId);
    }

    method AfterConnectionClosed(now: int, sessionId: string)
      requires Valid()
      modifies tracking, this`open, this`announced
      ensures Valid() && View() == Act(tracking.distance, old(View()), now, Close(sessionId))
    {
      Cleanup(sessionId);
    }

    /** Drops the connections of the evicted sessions and announces the drivers among them. */
    method SayGoodbye(evicted: seq<ClientSession>, ghost all: map<string, ClientSession>, ghost r: Registry,
                      ghost now: int)
      requires Shows(all, r) && Numbered(r) && Evicts(all, StaleKeys(r, now, STALE_SESSION_TIMEOUT_MS), evicted)
      modifies this`open, this`announced
      ensures open == old(open) - StaleKeys(r, now, STALE_SESSION_TIMEOUT_MS)
      ensures announced == old(announced) + multiset(StaleDrivers(r, now))
    {
      hide Shows, Numbered, Evicts, StaleKeys;
      for i := 0 to |evicted|
        invariant announced == old(announced) + multiset(ToldOf(evicted[..i]))
        invariant open == old(open) - KeysOf(evicted[..i])
      {
        OneMoreTold(all, r, StaleKeys(r, now, STALE_SESSION_TIMEOUT_MS), evicted, i);
        open := open - {evicted[i].sessionId};
        AnnounceDeparture(evicted[i]);
      }
      assert evicted[..|evicted|] == evicted;
      AllTold(all, r, now, evicted);
    }

    /** The sweep: every stale session goes, and every driver among them is announced. */
    method EvictStaleSessions(now: int)
      requires Valid()
      modifies tracking, this`open, this`announced
      ensures Valid() && View() == Act(tracking.distance, old(View()), now, SweepStale)
    {
      hide Step, Numbered, Stale, Shows, Evicts, LiveTrackingService.Valid, LiveTrackingService.SessionViews;
      hide LiveTrackingService.BusViews, LiveTrackingService.Objects;
      ghost var s, sessions0 := View(), tracking.sessions;
      StepNumbered(tracking.distance, s.reg, now, Sweep(STALE_SESSION_TIMEOUT_MS));
      SessionsShow(tracking);
      var evicted := tracking.EvictStaleSessions(now, STALE_SESSION_TIMEOUT_MS);
      SayGoodbye(evicted, sessions0, s.reg, now);
    }
  }

  /** The session objects of a registry show what the registry holds. */
  ghost predicate Shows(all: map<string, ClientSession>, r: Registry) {
    && all.Keys == r.sessions.Keys
    && forall k :: k in all ==>
         && all[k].sessionId == k
         && all[k].id == r.sessions[k].id
         && all[k].client == r.sessions[k].client
         && all[k].clientId == r.sessions[k].clientId
  }

  lemma SessionsShow(t: LiveTrackingService)
    requires t.Valid()
    ensures Shows(t.sessions, t.View())
  {
  }

  ghost function ToldOf(evicted: seq<ClientSession>): set<Departure> {
    set s | s in evicted && s.client.Driver? :: FarewellTo(s)
  }

  ghost function KeysOf(evicted: seq<ClientSession>): set<string> {
    set s | s in evicted :: s.sessionId
  }

  /** Session numbers differ, so each further driver adds a farewell of its own. */
  lemma OneMoreTold(all: map<string, ClientSession>, r: Registry, gone: set<string>, evicted: seq<ClientSession>,
                    i: nat)
    requires Shows(all, r) && Numbered(r) && Evicts(all, gone, evicted) && i < |evicted|
    ensures KeysOf(evicted[..i + 1]) == KeysOf(evicted[..i]) + {evicted[i].sessionId}
    ensures multiset(ToldOf(evicted[..i + 1])) == multiset(ToldOf(evicted[..i])) +
            if evicted[i].client.Driver? then multiset{FarewellTo(evicted[i])} else multiset{}
  {
    var s := evicted[i];
    assert evicted[..i + 1] == evicted[..i] + [s];
    assert s in evicted;
    if s.client.Driver? {
      var x := FarewellTo(s);
      assert forall j :: 0 <= j < i ==> evicted[j] in evicted;
      assert x !in ToldOf(evicted[..i]);
      assert ToldOf(evicted[..i + 1]) == ToldOf(evicted[..i]) + {x};
    } else {
      assert ToldOf(evicted[..i + 1]) == ToldOf(evicted[..i]);
    }
  }

  lemma AllTold(all: map<string, ClientSession>, r: Registry, now: int, evicted: seq<ClientSession>)
    requires Shows(all, r) && Evicts(all, StaleKeys(r, now, STALE_SESSION_TIMEOUT_MS), evicted)
    ensures KeysOf(evicted) == StaleKeys(r, now, STALE_SESSION_TIMEOUT_MS)
    ensures ToldOf(evicted) == StaleDrivers(r, now)
  {
    hide Stale;
    var gone := StaleKeys(r, now, STALE_SESSION_TIMEOUT_MS);
    forall k | k in gone
      ensures k in KeysOf(evicted)
    {
      assert all[k] in evicted;
    }
    forall x | x in StaleDrivers(r, now)
      ensures x in ToldOf(evicted)
    {
      var k :| k in gone && IsDriver(r, k) && x == DepartureOf(r.sessions[k]);
      assert all[k] in evicted && FarewellTo(all[k]) == x;
    }
  }
}
