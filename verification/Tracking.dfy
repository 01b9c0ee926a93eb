/** The registry of live sessions and buses as a state machine, and what every run of it keeps. */
module Tracking {
  import opened Geo
  import opened Options
  import opened LiveBus

  const PROXIMITY_THRESHOLD_KM := 0.5
  const PROXIMITY_COOLDOWN_MS := 120_000

  datatype Client = User | Driver(busCode: string)

  /** A connected client. `id` tells the registrations apart, as object identity does in the program. */
  datatype Session = Session(id: nat, client: Client, clientId: string, tracking: Option<string>,
                             subscribed: Option<int>, coords: Option<Point>, lastSeen: int, lastAlert: int)

  datatype Registry = Registry(sessions: map<string, Session>, buses: map<string, BusView>, next: nat)

  const EMPTY := Registry(map[], map[], 0)

  function NewSession(id: nat, client: Client, clientId: string, now: int): Session {
    Session(id, client, clientId, None, None, None, now, 0)
  }

  /** One public call of the tracking service, or one of its scheduled jobs. */
  datatype Event =
    | RegisterDriver(sid: string, driverId: string, busCode: string, mark: RouteMark)
    | RegisterUser(sid: string, userId: string)
    | Remove(sid: string)
    | DriverLocation(sid: string, at: Point, accuracy: Option<real>, visible: Option<bool>)
    | UserLocation(sid: string, at: Point)
    | TrackBus(sid: string, busCode: string)
    | SubscribeRoute(sid: string, route: Option<int>)
    | ReportOccupancy(sid: string, level: Occupancy)
    | DriverVisibility(driverId: string, shown: bool)
    | Touch(sid: string)
    | Alerts
    | Sweep(timeoutMs: int)

  predicate IsDriver(r: Registry, sid: string) {
    sid in r.sessions && r.sessions[sid].client.Driver?
  }

  /** Removing a driver retires the bus it names; an unknown session leaves everything as it is. */
  function Removed(r: Registry, sid: string): Registry {
    if sid !in r.sessions then r
    else
      var s := r.sessions[sid];
      r.(sessions := map k | k in r.sessions && k != sid :: r.sessions[k],
         buses := if s.client.Driver? then map b | b in r.buses && b != s.client.busCode :: r.buses[b] else r.buses)
  }

  /** A rider to be told now that the bus they follow is close. */
  predicate Due(d: Distance, r: Registry, now: int, sid: string) {
    && sid in r.sessions
    && var s := r.sessions[sid];
    && s.client.User? && s.coords.Some? && s.tracking.Some?
    && now - s.lastAlert >= PROXIMITY_COOLDOWN_MS
    && s.tracking.value in r.buses
    && var b := r.buses[s.tracking.value];
    && b.visible && b.recent != []
    && d(s.coords.value, b.recent[|b.recent| - 1].at) <= PROXIMITY_THRESHOLD_KM
  }

  predicate Stale(r: Registry, now: int, timeoutMs: int, sid: string) {
    sid in r.sessions && r.sessions[sid].lastSeen < now - timeoutMs
  }

  /** Whether some stale driver session names the bus. */
  ghost predicate Retired(r: Registry, now: int, timeoutMs: int, busCode: string) {
    exists k :: k in r.sessions && Stale(r, now, timeoutMs, k) && r.sessions[k].client == Driver(busCode)
  }

  ghost function Step(d: Distance, r: Registry, now: int, e: Event): Registry {
    match e
    case RegisterDriver(sid, driverId, busCode, mark) =>
      Registry(r.sessions[sid := NewSession(r.next, Driver(busCode), driverId, now)],
               r.buses[busCode := NewBus(driverId, mark, now)], r.next + 1)
    case RegisterUser(sid, userId) =>
      r.(sessions := r.sessions[sid := NewSession(r.next, User, userId, now)], next := r.next + 1)
    case Remove(sid) => Removed(r, sid)
    case DriverLocation(sid, at, accuracy, visible) =>
      if !IsDriver(r, sid) || !IsValid(at) then r
      else
        var s := r.sessions[sid];
        var code := s.client.busCode;
        var b := if code in r.buses then r.buses[code] else NewBus(s.clientId, UNMARKED, now);
        r.(sessions := r.sessions[sid := s.(coords := Some(at), lastSeen := now)],
           buses := r.buses[code := PingedBus(b, at, now, accuracy, visible)])
    case UserLocation(sid, at) =>
      if sid !in r.sessions || !IsValid(at) then r
      else r.(sessions := r.sessions[sid := r.sessions[sid].(coords := Some(at), lastSeen := now)])
    case TrackBus(sid, busCode) =>
      if sid !in r.sessions then r
      else r.(sessions := r.sessions[sid := r.sessions[sid].(tracking := Some(busCode), lastSeen := now)])
    case SubscribeRoute(sid, route) =>
      if sid !in r.sessions || !r.sessions[sid].client.User? then r
      else r.(sessions := r.sessions[sid := r.sessions[sid].(subscribed := route, lastSeen := now)])
    case ReportOccupancy(sid, level) =>
      if !IsDriver(r, sid) || r.sessions[sid].client.busCode !in r.buses then r
      else
        var code := r.sessions[sid].client.busCode;
        r.(sessions := r.sessions[sid := r.sessions[sid].(lastSeen := now)],
           buses := r.buses[code := r.buses[code].(occupancy := Some(level))])
    case DriverVisibility(driverId, shown) =>
      r.(buses := map b | b in r.buses ::
           if r.buses[b].driverId == driverId then r.buses[b].(visible := shown) else r.buses[b])
    case Touch(sid) =>
      if sid !in r.sessions then r
      else r.(sessions := r.sessions[sid := r.sessions[sid].(lastSeen := now)])
    case Alerts =>
      r.(sessions := map k | k in r.sessions ::
           if Due(d, r, now, k) then r.sessions[k].(lastAlert := now) else r.sessions[k])
    case Sweep(timeoutMs) =>
      r.(sessions := map k | k in r.sessions && !Stale(r, now, timeoutMs, k) :: r.sessions[k],
         buses := map b | b in r.buses && !Retired(r, now, timeoutMs, b) :: r.buses[b])
  }

  // ---- Runs ------------------------------------------------------------------------

  datatype Timed = Timed(now: int, event: Event)

  /** A run in which the clock never goes back. */
  ghost predicate Ordered(run: seq<Timed>) {
    forall i, j :: 0 <= i < j < |run| ==> run[i].now <= run[j].now
  }

  ghost function After(d: Distance, run: seq<Timed>, n: nat): Registry
    requires n <= |run|
  {
    if n == 0 then EMPTY else Step(d, After(d, run, n - 1), run[n - 1].now, run[n - 1].event)
  }

  /** A registration never replaces a session that is still there. */
  ghost predicate RegistersOnce(d: Distance, run: seq<Timed>) {
    forall i :: 0 <= i < |run| && Registers(run[i].event) ==>
      run[i].event.sid !in After(d, run, i).sessions
  }

  // ---- No live bus is orphaned -------------------------------------------------------

  ghost predicate Backs(r: Registry, sid: string, busCode: string) {
    sid in r.sessions && r.sessions[sid].client == Driver(busCode)
  }

  /** Every live bus is named by a driver session. */
  ghost predicate Backed(r: Registry) {
    forall b :: b in r.buses ==> exists k :: Backs(r, k, b)
  }

  predicate IsInside(p: Point) {
    -90.0 <= p.lat <= 90.0 && -180.0 <= p.lng <= 180.0
  }

  /** Every coordinate kept anywhere is in range. */
  ghost predicate InRange(r: Registry) {
    && (forall k :: k in r.sessions && r.sessions[k].coords.Some? ==> IsInside(r.sessions[k].coords.value))
    && (forall b, i :: b in r.buses && 0 <= i < |r.buses[b].recent| ==> IsInside(r.buses[b].recent[i].at))
  }

  lemma StepInRange(d: Distance, r: Registry, now: int, e: Event)
    requires InRange(r)
    ensures InRange(Step(d, r, now, e))
  {
  }

  /** An event that registers no one, or someone new on its connection, keeps every live bus backed. */
  lemma StepBacked(d: Distance, r: Registry, now: int, e: Event)
    requires Backed(r)
    requires Registers(e) ==> e.sid !in r.sessions
    ensures Backed(Step(d, r, now, e))
  {
    var s := Step(d, r, now, e);
    forall b | b in s.buses
      ensures exists k :: Backs(s, k, b)
    {
      if b in r.buses {
        var k :| Backs(r, k, b);
        assert Backs(s, k, b);
      } else {
        assert Backs(s, e.sid, b);
      }
    }
  }

  predicate Registers(e: Event) {
    e.RegisterDriver? || e.RegisterUser?
  }

  /** Replacing the session on the connection, if there is one, takes no live bus its only driver. */
  ghost predicate HandsOver(r: Registry, e: Event) {
    Registers(e) && e.sid in r.sessions ==>
      var replaced := r.sessions[e.sid].client;
      || replaced.User?
      || replaced.busCode !in r.buses
      || (e.RegisterDriver? && e.busCode == replaced.busCode)
      || exists k :: k != e.sid && Backs(r, k, replaced.busCode)
  }

  /**
   * Registering over a live session keeps every live bus backed exactly when the replaced session was no driver,
   * or its bus is not live, is the newly registered one, or is named by another session as well.
   */
  lemma OverwriteBacked(d: Distance, r: Registry, now: int, e: Event)
    requires Backed(r) && Registers(e) && e.sid in r.sessions
    ensures Backed(Step(d, r, now, e)) <==> HandsOver(r, e)
  {
    var s, client := Step(d, r, now, e), r.sessions[e.sid].client;
    if client.Driver? && client.busCode in r.buses {
      var b := client.busCode;
      if Backed(s) {
        assert b in s.buses;
        var k :| Backs(s, k, b);
        assert k != e.sid ==> Backs(r, k, b);
      }
    }
    if HandsOver(r, e) {
      forall b | b in s.buses
        ensures exists k :: Backs(s, k, b)
      {
        if e.RegisterDriver? && b == e.busCode {
          assert Backs(s, e.sid, b);
        } else {
          var k :| Backs(r, k, b);
          if k == e.sid {
            var j :| j != e.sid && Backs(r, j, b);
            assert Backs(s, j, b);
          } else {
            assert Backs(s, k, b);
          }
        }
      }
    }
  }

  lemma EmptyIsBacked()
    ensures Backed(EMPTY)
  {
  }

  /** In every run in which each connection registers once, at any time. */
  lemma {:induction false} NeverOrphaned(d: Distance, run: seq<Timed>, n: nat)
    requires RegistersOnce(d, run) && n <= |run|
    ensures Backed(After(d, run, n))
  {
    hide Step, Backed;
    if n == 0 {
      EmptyIsBacked();
    } else {
      NeverOrphaned(d, run, n - 1);
      StepBacked(d, After(d, run, n - 1), run[n - 1].now, run[n - 1].event);
    }
  }

  lemma {:induction false} AlwaysInRange(d: Distance, run: seq<Timed>, n: nat)
    requires n <= |run|
    ensures InRange(After(d, run, n))
  {
    if n > 0 {
      AlwaysInRange(d, run, n - 1);
      StepInRange(d, After(d, run, n - 1), run[n - 1].now, run[n - 1].event);
    }
  }

  /** A sweep parts the sessions into those heard from since the cutoff, kept unchanged, and the rest. */
  lemma SweepSplits(d: Distance, r: Registry, now: int, timeoutMs: int, k: string)
    ensures var s := Step(d, r, now, Sweep(timeoutMs));
      && (k in s.sessions <==> k in r.sessions && r.sessions[k].lastSeen >= now - timeoutMs)
      && (k in s.sessions ==> s.sessions[k] == r.sessions[k])
  {
  }

  /** Right after a sweep each surviving bus has a driver heard from within the timeout. */
  lemma SweptBusesAreFresh(d: Distance, run: seq<Timed>, n: nat, b: string) returns (k: string)
    requires RegistersOnce(d, run) && 0 < n <= |run| && run[n - 1].event.Sweep?
    requires b in After(d, run, n).buses
    ensures Backs(After(d, run, n), k, b)
    ensures After(d, run, n).sessions[k].lastSeen >= run[n - 1].now - run[n - 1].event.timeoutMs
  {
    NeverOrphaned(d, run, n);
    k :| Backs(After(d, run, n), k, b);
    SweepSplits(d, After(d, run, n - 1), run[n - 1].now, run[n - 1].event.timeoutMs, k);
  }

  const TWO_REGISTRATIONS :=
    [Timed(0, RegisterDriver("c", "ann", "MH-1", UNMARKED)), Timed(1, RegisterDriver("c", "ann", "MH-2", UNMARKED))]

  /** Without the proviso it fails: a driver that registers a second bus on its connection leaves the first one live. */
  lemma SecondRegistrationOrphans(d: Distance)
    ensures Ordered(TWO_REGISTRATIONS) && !Backed(After(d, TWO_REGISTRATIONS, 2))
  {
    var run := TWO_REGISTRATIONS;
    assert After(d, run, 0) == EMPTY;
    var r1 := After(d, run, 1);
    assert r1.sessions == map["c" := NewSession(0, Driver("MH-1"), "ann", 0)];
    var r2 := After(d, run, 2);
    assert r2.sessions == map["c" := NewSession(1, Driver("MH-2"), "ann", 1)];
    assert "MH-1" in r2.buses;
    assert "MH-1"[3] != "MH-2"[3];
    assert forall k :: !Backs(r2, k, "MH-1");
  }

  // ---- Alerts are spaced ------------------------------------------------------------------

  /** Registrations are told apart: numbers are below `next` and no two sessions share one. */
  ghost predicate Numbered(r: Registry) {
    && (forall k :: k in r.sessions ==> r.sessions[k].id < r.next)
    && (forall j, k :: j in r.sessions && k in r.sessions && r.sessions[j].id == r.sessions[k].id ==> j == k)
  }

  lemma StepNumbered(d: Distance, r: Registry, now: int, e: Event)
    requires Numbered(r)
    ensures Numbered(Step(d, r, now, e)) && Step(d, r, now, e).next >= r.next
  {
    hide Due, Stale, Retired, NewBus, PingedBus, IsValid;
  }

  lemma {:induction false} AlwaysNumbered(d: Distance, run: seq<Timed>, n: nat)
    requires n <= |run|
    ensures Numbered(After(d, run, n))
  {
    hide Step, Numbered;
    if n == 0 {
      EmptyIsNumbered();
    } else {
      AlwaysNumbered(d, run, n - 1);
      StepNumbered(d, After(d, run, n - 1), run[n - 1].now, run[n - 1].event);
    }
  }

  lemma EmptyIsNumbered()
    ensures Numbered(EMPTY)
  {
  }

  /** Whether registration `id` is alerted by a call at `now`. */
  ghost predicate Alerted(d: Distance, r: Registry, now: int, id: nat) {
    exists k :: Due(d, r, now, k) && r.sessions[k].id == id
  }

  /** When registration `id` was alerted in the first `n` steps. */
  ghost function AlertTimes(d: Distance, run: seq<Timed>, id: nat, n: nat): seq<int>
    requires n <= |run|
  {
    if n == 0 then []
    else
      AlertTimes(d, run, id, n - 1) +
      if run[n - 1].event.Alerts? && Alerted(d, After(d, run, n - 1), run[n - 1].now, id) then [run[n - 1].now] else []
  }

  ghost predicate Spaced(times: seq<int>) {
    forall i, j :: 0 <= i < j < |times| ==> times[j] - times[i] >= PROXIMITY_COOLDOWN_MS * (j - i)
  }

  /** The session remembers its last alert; a number not yet given out has had none. */
  ghost predicate Remembers(r: Registry, id: nat, times: seq<int>) {
    && (id >= r.next ==> times == [])
    && forall k :: k in r.sessions && r.sessions[k].id == id && times != [] ==>
         r.sessions[k].lastAlert == times[|times| - 1]
  }

  lemma SpacedAppend(times: seq<int>, now: int)
    requires Spaced(times) && (times != [] ==> now - times[|times| - 1] >= PROXIMITY_COOLDOWN_MS)
    ensures Spaced(times + [now])
  {
    var longer := times + [now];
    forall i, j | 0 <= i < j < |longer|
      ensures longer[j] - longer[i] >= PROXIMITY_COOLDOWN_MS * (j - i)
    {
      if j == |times| && i < j - 1 {
        assert times[j - 1] - times[i] >= PROXIMITY_COOLDOWN_MS * (j - 1 - i);
      }
    }
  }

  lemma StepRemembers(d: Distance, r: Registry, now: int, e: Event, id: nat, times: seq<int>)
    requires Numbered(r) && Remembers(r, id, times)
    ensures var longer := times + if e.Alerts? && Alerted(d, r, now, id) then [now] else [];
      Remembers(Step(d, r, now, e), id, longer)
  {
    hide Stale, Retired, NewBus, PingedBus;
    var s := Step(d, r, now, e);
    if e.Alerts? && Alerted(d, r, now, id) {
      var k :| Due(d, r, now, k) && r.sessions[k].id == id;
    } else {
      assert times + [] == times;
      forall k | k in s.sessions && s.sessions[k].id == id && times != []
        ensures s.sessions[k].lastAlert == times[|times| - 1]
      {
        if e.Alerts? {
          assert !Due(d, r, now, k);
        }
      }
    }
  }

  /** In every run the alerts of one registration are at least two minutes apart. */
  lemma {:induction false} AlertsAreSpaced(d: Distance, run: seq<Timed>, id: nat, n: nat)
    requires n <= |run|
    ensures Spaced(AlertTimes(d, run, id, n))
    ensures Remembers(After(d, run, n), id, AlertTimes(d, run, id, n))
  {
    hide Step, Remembers, Numbered, Spaced;
    if n == 0 {
      NothingRemembered(id);
    } else {
      AlertsAreSpaced(d, run, id, n - 1);
      AlwaysNumbered(d, run, n - 1);
      var r, now, times := After(d, run, n - 1), run[n - 1].now, AlertTimes(d, run, id, n - 1);
      StepRemembers(d, r, now, run[n - 1].event, id, times);
      if run[n - 1].event.Alerts? && Alerted(d, r, now, id) {
        CooledDown(d, r, now, id, times);
        SpacedAppend(times, now);
      } else {
        assert times + [] == times;
      }
    }
  }

  lemma NothingRemembered(id: nat)
    ensures Remembers(EMPTY, id, []) && Spaced([])
  {
  }

  lemma CooledDown(d: Distance, r: Registry, now: int, id: nat, times: seq<int>)
    requires Remembers(r, id, times) && Alerted(d, r, now, id)
    ensures times != [] ==> now - times[|times| - 1] >= PROXIMITY_COOLDOWN_MS
  {
  }

  /** How many of the times fall into a stretch. */
  function Within(times: seq<int>, from: int, to: int): nat {
    if times == [] then 0
    else Within(times[..|times| - 1], from, to) + if from <= times[|times| - 1] <= to then 1 else 0
  }

  lemma {:induction false} SpacedCount(times: seq<int>, from: int, width: nat)
    requires Spaced(times)
    ensures Within(times, from, from + width) <= 1 + width / PROXIMITY_COOLDOWN_MS
    ensures Within(times, from, from + width) > 0 ==>
      exists i :: 0 <= i && i + Within(times, from, from + width) <= |times| && from <= times[i]
  {
    if times != [] {
      var n, last := |times| - 1, times[|times| - 1];
      SpacedCount(times[..n], from, width);
      var c := Within(times[..n], from, from + width);
      if from <= last <= from + width && c > 0 {
        var i :| 0 <= i && i + c <= n && from <= times[..n][i];
        assert times[n] - times[i] >= PROXIMITY_COOLDOWN_MS * (n - i);
        AtLeast(c, n - i, width);
        assert from <= times[i];
      } else if from <= last <= from + width {
        assert from <= times[n];
      } else if c > 0 {
        var i :| 0 <= i && i + c <= n && from <= times[..n][i];
        assert from <= times[i];
      }
    }
  }

  lemma AtLeast(c: nat, m: int, width: nat)
    requires c <= m && PROXIMITY_COOLDOWN_MS * m <= width
    ensures c <= width / PROXIMITY_COOLDOWN_MS
  {
  }

  /** At most one alert plus one for every full two minutes, in any stretch of any run. */
  lemma AlertRate(d: Distance, run: seq<Timed>, id: nat, from: int, width: nat)
    ensures Within(AlertTimes(d, run, id, |run|), from, from + width) <= 1 + width / PROXIMITY_COOLDOWN_MS
  {
    AlertsAreSpaced(d, run, id, |run|);
    SpacedCount(AlertTimes(d, run, id, |run|), from, width);
  }

  // ---- The history of a bus -----------------------------------------------------------------

  /** The fixes sent for a bus since it was last opened, in the first `n` steps. */
  ghost function Fixes(d: Distance, run: seq<Timed>, busCode: string, n: nat): seq<TimedPoint>
    requires n <= |run|
  {
    if n == 0 then []
    else
      var r, now, e := After(d, run, n - 1), run[n - 1].now, run[n - 1].event;
      var before := if busCode in r.buses then Fixes(d, run, busCode, n - 1) else [];
      if e.RegisterDriver? && e.busCode == busCode then []
      else if e.DriverLocation? && Backs(r, e.sid, busCode) && IsValid(e.at) then before + [TimedPoint(e.at, now)]
      else before
  }

  lemma StepHistory(d: Distance, r: Registry, now: int, e: Event, busCode: string)
    requires busCode in Step(d, r, now, e).buses
    ensures var after := Step(d, r, now, e).buses[busCode].recent;
      var before := if busCode in r.buses then r.buses[busCode].recent else [];
      after == if e.RegisterDriver? && e.busCode == busCode then []
               else if e.DriverLocation? && Backs(r, e.sid, busCode) && IsValid(e.at)
                    then Pushed(before, TimedPoint(e.at, now))
               else before
  {
  }

  /** In every run a live bus holds the last sixty fixes sent for it since it was opened, or all of them, in order. */
  lemma {:induction false} HistoryOverRuns(d: Distance, run: seq<Timed>, busCode: string, n: nat)
    requires n <= |run| && busCode in After(d, run, n).buses
    ensures var fixes := Fixes(d, run, busCode, n);
      After(d, run, n).buses[busCode].recent ==
        if |fixes| <= RING_BUFFER_SIZE then fixes else fixes[|fixes| - RING_BUFFER_SIZE..]
  {
    BufferOverRuns(d, run, busCode, n);
    HistoryIsTheLatest(Fixes(d, run, busCode, n));
  }

  lemma {:induction false} BufferOverRuns(d: Distance, run: seq<Timed>, busCode: string, n: nat)
    requires n <= |run| && busCode in After(d, run, n).buses
    ensures After(d, run, n).buses[busCode].recent == AfterAll(Fixes(d, run, busCode, n))
  {
    hide Step, Pushed;
    if n > 0 {
      var r, now, e := After(d, run, n - 1), run[n - 1].now, run[n - 1].event;
      StepHistory(d, r, now, e, busCode);
      if busCode in r.buses {
        BufferOverRuns(d, run, busCode, n - 1);
      }
      var before := if busCode in r.buses then Fixes(d, run, busCode, n - 1) else [];
      assert (before + [TimedPoint(Point(0.0, 0.0), now)])[..|before|] == before;
      if e.DriverLocation? {
        assert (before + [TimedPoint(e.at, now)])[..|before|] == before;
      }
    }
  }

  // ---- The mark of a bus -------------------------------------------------------------

  lemma StepMark(d: Distance, r: Registry, now: int, e: Event, busCode: string)
    requires busCode in Step(d, r, now, e).buses
    ensures Step(d, r, now, e).buses[busCode].mark ==
            if e.RegisterDriver? && e.busCode == busCode then e.mark
            else if busCode in r.buses then r.buses[busCode].mark else UNMARKED
  {
    hide Due, Stale, Retired, Pushed;
  }

  /**
   * A live bus carries the mark of its last registration, step `i`, exactly when it has been live ever since or that
   * registration knew no route: a bus that was retired and comes back with a fix comes back without its mark.
   */
  lemma {:induction false} MarkOverRuns(d: Distance, run: seq<Timed>, busCode: string, i: nat, n: nat)
    requires i < n <= |run| && busCode in After(d, run, n).buses
    requires run[i].event.RegisterDriver? && run[i].event.busCode == busCode
    requires forall j :: i < j < n ==> !(run[j].event.RegisterDriver? && run[j].event.busCode == busCode)
    ensures After(d, run, n).buses[busCode].mark ==
            if StaysLive(d, run, busCode, i, n) then run[i].event.mark else UNMARKED
  {
    hide Step;
    var r := After(d, run, n - 1);
    StepMark(d, r, run[n - 1].now, run[n - 1].event, busCode);
    if i < n - 1 && busCode in r.buses {
      MarkOverRuns(d, run, busCode, i, n - 1);
      if StaysLive(d, run, busCode, i, n - 1) {
        forall j | i < j <= n
          ensures busCode in After(d, run, j).buses
        {
          assert j == n || j <= n - 1;
        }
      }
    }
  }

  ghost predicate StaysLive(d: Distance, run: seq<Timed>, busCode: string, i: nat, n: nat)
    requires n <= |run|
  {
    forall j :: i < j <= n ==> busCode in After(d, run, j).buses
  }
}
