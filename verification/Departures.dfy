/** The transport over the registry: connections, and the announcement of every driver that leaves. */
module Departures {
  import opened Geo
  import opened Tracking

  const STALE_SESSION_TIMEOUT_MS := 120_000

  /** A driver registration, with what `driver-left` says about it. */
  datatype Departure = Departure(id: nat, driverId: string, busCode: string)

  /**
   * The registry, the open connections and the announcements made so far. `drivers` remembers every driver
   * registration ever made, `overwritten` those replaced by a later registration on their own connection.
   */
  datatype System = System(reg: Registry, open: set<string>, announced: multiset<Departure>,
                           drivers: map<nat, Departure>, overwritten: set<nat>)

  const START := System(EMPTY, {}, multiset{}, map[], {})

  datatype Action =
    | Connect(sid: string)
    | Message(event: Event)
    | TransportError(sid: string)
    | Close(sid: string)
    | SweepStale

  /** Messages do not remove sessions or sweep; only the transport does. */
  predicate IsMessage(e: Event) {
    !e.Remove? && !e.Sweep?
  }

  function DepartureOf(s: Session): Departure
    requires s.client.Driver?
  {
    Departure(s.id, s.clientId, s.client.busCode)
  }

  /** The announcement owed when the session on `sid` goes: one for a driver, none for anybody else. */
  function Farewell(r: Registry, sid: string): multiset<Departure> {
    if IsDriver(r, sid) then multiset{DepartureOf(r.sessions[sid])} else multiset{}
  }

  ghost function StaleDrivers(r: Registry, now: int): set<Departure> {
    set k | k in r.sessions && Stale(r, now, STALE_SESSION_TIMEOUT_MS, k) && IsDriver(r, k) ::
      DepartureOf(r.sessions[k])
  }

  /** A registration on a connection that holds a driver overwrites that driver's. */
  ghost function Overwriting(s: System, sid: string): set<nat> {
    if IsDriver(s.reg, sid) then s.overwritten + {s.reg.sessions[sid].id} else s.overwritten
  }

  ghost function Act(d: Distance, s: System, now: int, a: Action): System {
    match a
    case Connect(sid) => s.(open := s.open + {sid})
    case Message(e) =>
      var reg := Step(d, s.reg, now, e);
      if e.RegisterDriver? then
        s.(reg := reg, overwritten := Overwriting(s, e.sid),
           drivers := s.drivers[s.reg.next := Departure(s.reg.next, e.driverId, e.busCode)])
      else if e.RegisterUser? then s.(reg := reg, overwritten := Overwriting(s, e.sid))
      else s.(reg := reg)
    case TransportError(sid) => Cleaned(s, sid)
    case Close(sid) => Cleaned(s, sid)
    case SweepStale =>
      s.(reg := Step(d, s.reg, now, Sweep(STALE_SESSION_TIMEOUT_MS)),
         open := (set k | k in s.open && !Stale(s.reg, now, STALE_SESSION_TIMEOUT_MS, k)),
         announced := s.announced + multiset(StaleDrivers(s.reg, now)))
  }

  ghost function Cleaned(s: System, sid: string): System {
    s.(reg := Removed(s.reg, sid), open := s.open - {sid}, announced := s.announced + Farewell(s.reg, sid))
  }

  // ---- Every departure is announced exactly once -------------------------------

  /** Registration `id` is that of a driver still in the registry. */
  ghost predicate Live(s: System, id: nat) {
    exists k :: IsDriver(s.reg, k) && s.reg.sessions[k].id == id
  }

  /** The driver session on `sid` is recorded, and not as overwritten. */
  ghost predicate OnRecord(s: System, sid: string)
    requires IsDriver(s.reg, sid)
  {
    var id := s.reg.sessions[sid].id;
    id in s.drivers && s.drivers[id] == DepartureOf(s.reg.sessions[sid]) && id !in s.overwritten
  }

  /** Announced once if gone and not overwritten, and otherwise not at all. */
  ghost predicate Settled(s: System, id: nat)
    requires id in s.drivers
  {
    s.announced[s.drivers[id]] == if Live(s, id) || id in s.overwritten then 0 else 1
  }

  ghost predicate Accounted(s: System) {
    && Numbered(s.reg)
    && (forall id :: id in s.drivers ==> id < s.reg.next && s.drivers[id].id == id)
    && (forall x :: x in s.announced ==> x.id in s.drivers && s.drivers[x.id] == x)
    && (forall id :: id in s.overwritten ==> id in s.drivers)
    && (forall k :: IsDriver(s.reg, k) ==> OnRecord(s, k))
    && (forall id :: id in s.drivers ==> Settled(s, id))
  }

  lemma CleanedKeepsAccount(d: Distance, s: System, sid: string)
    requires Accounted(s)
    ensures Accounted(Cleaned(s, sid))
  {
    hide Settled, Numbered;
    var t := Cleaned(s, sid);
    StepNumbered(d, s.reg, 0, Remove(sid));
    forall k | IsDriver(t.reg, k)
      ensures OnRecord(t, k)
    {
      assert IsDriver(s.reg, k) && OnRecord(s, k);
    }
    assert IsDriver(s.reg, sid) ==> OnRecord(s, sid);
    forall id | id in t.drivers
      ensures Settled(t, id)
    {
      CleanedTally(s, sid, id);
    }
  }

  lemma CleanedTally(s: System, sid: string, id: nat)
    requires Accounted(s) && id in s.drivers
    ensures Settled(Cleaned(s, sid), id)
  {
    var t := Cleaned(s, sid);
    assert Settled(s, id);
    assert IsDriver(s.reg, sid) ==> OnRecord(s, sid);
    if IsDriver(s.reg, sid) && s.reg.sessions[sid].id == id {
      assert Live(s, id) && !Live(t, id);
    } else {
      if Live(s, id) {
        var k :| IsDriver(s.reg, k) && s.reg.sessions[k].id == id;
        assert k != sid && IsDriver(t.reg, k);
      }
      assert Live(t, id) <==> Live(s, id);
    }
  }

  /** A sweep takes away exactly the stale sessions, and numbers nobody. */
  lemma SweptSessions(d: Distance, r: Registry, now: int)
    ensures var q := Step(d, r, now, Sweep(STALE_SESSION_TIMEOUT_MS));
      && q.next == r.next
      && forall k :: if k in q.sessions then k in r.sessions && q.sessions[k] == r.sessions[k]
                       && !Stale(r, now, STALE_SESSION_TIMEOUT_MS, k)
                     else k in r.sessions ==> Stale(r, now, STALE_SESSION_TIMEOUT_MS, k)
  {
  }

  lemma SweepKeepsAccount(d: Distance, s: System, now: int)
    requires Accounted(s)
    ensures Accounted(Act(d, s, now, SweepStale))
  {
    hide Step, Stale, Settled, Numbered;
    var t := Act(d, s, now, SweepStale);
    SweptSessions(d, s.reg, now);
    StepNumbered(d, s.reg, now, Sweep(STALE_SESSION_TIMEOUT_MS));
    forall x | x in t.announced
      ensures x.id in t.drivers && t.drivers[x.id] == x
    {
      assert x in s.announced || x in StaleDrivers(s.reg, now);
      assert forall k :: IsDriver(s.reg, k) ==> OnRecord(s, k);
    }
    forall k | IsDriver(t.reg, k)
      ensures OnRecord(t, k)
    {
      assert IsDriver(s.reg, k) && OnRecord(s, k);
    }
    forall id | id in t.drivers
      ensures Settled(t, id)
    {
      SweptTally(d, s, now, id);
    }
  }

  lemma SweptTally(d: Distance, s: System, now: int, id: nat)
    requires Accounted(s) && id in s.drivers
    ensures Settled(Act(d, s, now, SweepStale), id)
  {
    hide Step, Stale;
    var t, x, gone := Act(d, s, now, SweepStale), s.drivers[id], StaleDrivers(s.reg, now);
    SweptSessions(d, s.reg, now);
    assert Settled(s, id);
    assert t.announced[x] == s.announced[x] + if x in gone then 1 else 0;
    if Live(s, id) {
      var k :| IsDriver(s.reg, k) && s.reg.sessions[k].id == id;
      assert OnRecord(s, k);
      if Stale(s.reg, now, STALE_SESSION_TIMEOUT_MS, k) {
        assert x in gone;
        assert !Live(t, id);
      } else {
        assert IsDriver(t.reg, k);
        assert x !in gone;
      }
    } else {
      assert !Live(t, id) && x !in gone;
    }
  }

  /** Any message but a registration leaves who is who alone. */
  ghost predicate SameClients(r: Registry, q: Registry) {
    && q.next == r.next && q.sessions.Keys == r.sessions.Keys
    && forall k :: k in r.sessions ==>
         && q.sessions[k].id == r.sessions[k].id
         && q.sessions[k].client == r.sessions[k].client
         && q.sessions[k].clientId == r.sessions[k].clientId
  }

  lemma OtherMessages(d: Distance, r: Registry, now: int, e: Event)
    requires IsMessage(e) && !e.RegisterDriver? && !e.RegisterUser?
    ensures SameClients(r, Step(d, r, now, e))
  {
  }

  lemma SameClientsKeepAccount(s: System, q: Registry)
    requires Accounted(s) && SameClients(s.reg, q)
    ensures Accounted(s.(reg := q))
  {
    var t := s.(reg := q);
    forall k | IsDriver(t.reg, k)
      ensures OnRecord(t, k)
    {
      assert IsDriver(s.reg, k) && OnRecord(s, k);
    }
    forall id | id in s.drivers
      ensures Settled(t, id)
    {
      assert Settled(s, id);
      if Live(s, id) {
        var k :| IsDriver(s.reg, k) && s.reg.sessions[k].id == id;
        assert IsDriver(t.reg, k) && t.reg.sessions[k].id == id;
      }
    }
  }

  /** After `e` the connection holds a new session, numbered `next`, and the others are as they were. */
  ghost predicate Registered(r: Registry, q: Registry, e: Event) {
    && (e.RegisterDriver? || e.RegisterUser?)
    && q.next == r.next + 1 && e.sid in q.sessions && q.sessions[e.sid].id == r.next
    && (e.RegisterDriver? ==> q.sessions[e.sid].client == Driver(e.busCode) && q.sessions[e.sid].clientId == e.driverId)
    && (e.RegisterUser? ==> q.sessions[e.sid].client == User)
    && forall k :: k != e.sid ==>
         (k in q.sessions <==> k in r.sessions) && (k in r.sessions ==> q.sessions[k] == r.sessions[k])
  }

  lemma RegisterStep(d: Distance, r: Registry, now: int, e: Event)
    requires e.RegisterDriver? || e.RegisterUser?
    ensures Registered(r, Step(d, r, now, e), e)
  {
  }

  lemma RegisteredIsAccounted(s: System, t: System, e: Event)
    requires Accounted(s) && Registered(s.reg, t.reg, e) && Numbered(t.reg)
    requires t.announced == s.announced && t.overwritten == Overwriting(s, e.sid)
    requires t.drivers == if e.RegisterDriver?
             then s.drivers[s.reg.next := Departure(s.reg.next, e.driverId, e.busCode)] else s.drivers
    ensures Accounted(t)
  {
    hide Numbered, Settled, OnRecord;
    assert IsDriver(s.reg, e.sid) ==> OnRecord(s, e.sid);
    forall k | IsDriver(t.reg, k)
      ensures OnRecord(t, k)
    {
      RegisteredOnRecord(s, t, e, k);
    }
    forall id | id in t.drivers
      ensures Settled(t, id)
    {
      RegisteredTally(s, t, e, id);
    }
    if IsDriver(s.reg, e.sid) {
      KnownDriver(s, e.sid);
    }
  }

  lemma KnownDriver(s: System, sid: string)
    requires IsDriver(s.reg, sid) && OnRecord(s, sid)
    ensures s.reg.sessions[sid].id in s.drivers
  {
  }

  lemma RegisteredOnRecord(s: System, t: System, e: Event, k: string)
    requires Accounted(s) && Registered(s.reg, t.reg, e) && IsDriver(t.reg, k)
    requires t.overwritten == Overwriting(s, e.sid)
    requires t.drivers == if e.RegisterDriver?
             then s.drivers[s.reg.next := Departure(s.reg.next, e.driverId, e.busCode)] else s.drivers
    ensures OnRecord(t, k)
  {
    hide Settled;
    if k == e.sid {
      assert s.reg.next !in s.overwritten;
    } else {
      assert IsDriver(s.reg, k) && OnRecord(s, k);
    }
  }

  lemma RegisteredTally(s: System, t: System, e: Event, id: nat)
    requires Accounted(s) && Registered(s.reg, t.reg, e) && id in t.drivers
    requires t.announced == s.announced && t.overwritten == Overwriting(s, e.sid)
    requires t.drivers == if e.RegisterDriver?
             then s.drivers[s.reg.next := Departure(s.reg.next, e.driverId, e.busCode)] else s.drivers
    ensures Settled(t, id)
  {
    hide OnRecord, Numbered;
    if id == s.reg.next {
      assert e.RegisterDriver?;
      assert IsDriver(t.reg, e.sid) && t.reg.sessions[e.sid].id == id;
      assert t.drivers[id] !in s.announced;
    } else {
      assert Settled(s, id);
      if IsDriver(s.reg, e.sid) && s.reg.sessions[e.sid].id == id {
        assert Live(s, id) && id in t.overwritten;
      } else {
        OthersStay(s, t, e, id);
      }
    }
  }

  lemma OthersStay(s: System, t: System, e: Event, id: nat)
    requires Registered(s.reg, t.reg, e) && id != s.reg.next
    requires !(IsDriver(s.reg, e.sid) && s.reg.sessions[e.sid].id == id)
    ensures Live(t, id) <==> Live(s, id)
  {
    if Live(s, id) {
      var k :| IsDriver(s.reg, k) && s.reg.sessions[k].id == id;
      assert IsDriver(t.reg, k) && t.reg.sessions[k].id == id;
    }
    if Live(t, id) {
      var k :| IsDriver(t.reg, k) && t.reg.sessions[k].id == id;
      assert IsDriver(s.reg, k) && s.reg.sessions[k].id == id;
    }
  }

  lemma RegisterKeepsAccount(d: Distance, s: System, now: int, e: Event)
    requires Accounted(s) && (e.RegisterDriver? || e.RegisterUser?)
    ensures Accounted(Act(d, s, now, Message(e)))
  {
    hide Step, Registered, Numbered;
    StepNumbered(d, s.reg, now, e);
    RegisterStep(d, s.reg, now, e);
    RegisteredIsAccounted(s, Act(d, s, now, Message(e)), e);
  }

  lemma ActKeepsAccount(d: Distance, s: System, now: int, a: Action)
    requires Accounted(s) && (a.Message? ==> IsMessage(a.event))
    ensures Accounted(Act(d, s, now, a))
  {
    hide Accounted, Step;
    match a
    case Connect(sid) =>
      Reconnected(s, s.open + {sid});
    case Message(e) =>
      if e.RegisterDriver? || e.RegisterUser? {
        RegisterKeepsAccount(d, s, now, e);
      } else {
        OtherMessages(d, s.reg, now, e);
        SameClientsKeepAccount(s, Step(d, s.reg, now, e));
      }
    case TransportError(sid) =>
      CleanedKeepsAccount(d, s, sid);
    case Close(sid) =>
      CleanedKeepsAccount(d, s, sid);
    case SweepStale =>
      SweepKeepsAccount(d, s, now);
  }

  lemma Reconnected(s: System, open: set<string>)
    requires Accounted(s)
    ensures Accounted(s.(open := open))
  {
    var t := s.(open := open);
    forall k | IsDriver(t.reg, k)
      ensures OnRecord(t, k)
    {
      assert OnRecord(s, k);
    }
    forall id | id in t.drivers
      ensures Settled(t, id)
    {
      assert Settled(s, id) && (Live(t, id) <==> Live(s, id));
    }
  }

  datatype Timed = Timed(now: int, action: Action)

  /** Any interleaving of connections, messages, errors, closings and sweeps. */
  ghost predicate IsRun(run: seq<Timed>) {
    forall i :: 0 <= i < |run| && run[i].action.Message? ==> IsMessage(run[i].action.event)
  }

  ghost function After(d: Distance, run: seq<Timed>, n: nat): System
    requires n <= |run|
  {
    if n == 0 then START else Act(d, After(d, run, n - 1), run[n - 1].now, run[n - 1].action)
  }

  lemma {:induction false} AlwaysAccounted(d: Distance, run: seq<Timed>, n: nat)
    requires IsRun(run) && n <= |run|
    ensures Accounted(After(d, run, n))
  {
    hide Act, Accounted;
    if n == 0 {
      StartIsAccounted();
    } else {
      AlwaysAccounted(d, run, n - 1);
      ActKeepsAccount(d, After(d, run, n - 1), run[n - 1].now, run[n - 1].action);
    }
  }

  lemma StartIsAccounted()
    ensures Accounted(START)
  {
  }

  /**
   * In every run, at any time: a driver registration that was not overwritten on its own connection has been
   * announced exactly once if its session is gone, and not at all while it is there; nothing else is announced.
   */
  lemma AnnouncedExactlyOnce(d: Distance, run: seq<Timed>, n: nat, x: Departure)
    requires IsRun(run) && n <= |run|
    ensures var s := After(d, run, n);
      && (x.id in s.drivers && s.drivers[x.id] == x && x.id !in s.overwritten ==>
            s.announced[x] == if Live(s, x.id) then 0 else 1)
      && (!(x.id in s.drivers && s.drivers[x.id] == x) || x.id in s.overwritten ==> s.announced[x] == 0)
  {
    AlwaysAccounted(d, run, n);
  }

  /** Nothing is ever struck from the record. */
  lemma RecordStays(d: Distance, s: System, now: int, a: Action, id: nat)
    requires (a.Message? ==> IsMessage(a.event)) && id < s.reg.next && id in s.drivers
    ensures var t := Act(d, s, now, a); id < t.reg.next && id in t.drivers && t.drivers[id] == s.drivers[id]
  {
    hide Step, Registered;
    if a.Message? {
      if a.event.RegisterDriver? || a.event.RegisterUser? {
        RegisterStep(d, s.reg, now, a.event);
        NextGrows(s.reg, Step(d, s.reg, now, a.event), a.event);
      } else {
        OtherMessages(d, s.reg, now, a.event);
      }
    } else if a.SweepStale? {
      SweptSessions(d, s.reg, now);
    }
  }

  lemma NextGrows(r: Registry, q: Registry, e: Event)
    requires Registered(r, q, e)
    ensures q.next == r.next + 1
  {
  }

  /** The history is what it says: the driver registrations of the run, numbered in order of registration. */
  lemma {:induction false} DriversAreRecorded(d: Distance, run: seq<Timed>, n: nat, i: nat)
    requires IsRun(run) && i < n <= |run|
    requires run[i].action.Message? && run[i].action.event.RegisterDriver?
    ensures var id, e := After(d, run, i).reg.next, run[i].action.event;
      var s := After(d, run, n);
      id < s.reg.next && id in s.drivers && s.drivers[id] == Departure(id, e.driverId, e.busCode)
  {
    if i < n - 1 {
      hide Act;
      DriversAreRecorded(d, run, n - 1, i);
      RecordStays(d, After(d, run, n - 1), run[n - 1].now, run[n - 1].action, After(d, run, i).reg.next);
    } else {
      hide Step, Registered;
      var r, e := After(d, run, i).reg, run[i].action.event;
      RegisterStep(d, r, run[i].now, e);
      NextGrows(r, Step(d, r, run[i].now, e), e);
    }
  }
}
