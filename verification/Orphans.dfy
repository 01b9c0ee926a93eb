/**
 * Exactly which runs keep every live bus backed by a driver, how long a bus stays without one, and which runs keep
 * every driver on the air.
 */
module Orphans {
  import opened Geo
  import opened LiveBus
  import opened Tracking

  /** One event keeps the live buses backed exactly when it hands over. */
  lemma BackedAfter(d: Distance, r: Registry, now: int, e: Event)
    requires Backed(r)
    ensures Backed(Step(d, r, now, e)) <==> HandsOver(r, e)
  {
    hide Step, Backed, Backs;
    if Registers(e) && e.sid in r.sessions {
      OverwriteBacked(d, r, now, e);
    } else {
      StepBacked(d, r, now, e);
    }
  }

  /** The buses are backed all the way through a run exactly when every registration in it hands over. */
  lemma {:induction false} BackedThroughout(d: Distance, run: seq<Timed>, n: nat)
    requires n <= |run|
    ensures (forall m :: 0 <= m <= n ==> Backed(After(d, run, m))) <==>
            forall i :: 0 <= i < n ==> HandsOver(After(d, run, i), run[i].event)
  {
    hide Step, Backed, HandsOver;
    if n == 0 {
      EmptyIsBacked();
      assert After(d, run, 0) == EMPTY;
    } else {
      hide After;
      BackedThroughout(d, run, n - 1);
      var r := After(d, run, n - 1);
      NextAfter(d, run, n);
      if Backed(r) {
        BackedAfter(d, r, run[n - 1].now, run[n - 1].event);
      }
      if forall i :: 0 <= i < n ==> HandsOver(After(d, run, i), run[i].event) {
        assert Backed(r) && HandsOver(r, run[n - 1].event);
        forall m | 0 <= m <= n
          ensures Backed(After(d, run, m))
        {
          assert m == n || m <= n - 1;
        }
      }
      if forall m :: 0 <= m <= n ==> Backed(After(d, run, m)) {
        assert Backed(After(d, run, n)) && Backed(r);
      }
    }
  }

  lemma NextAfter(d: Distance, run: seq<Timed>, n: nat)
    requires 0 < n <= |run|
    ensures After(d, run, n) == Step(d, After(d, run, n - 1), run[n - 1].now, run[n - 1].event)
  {
  }

  /** A live bus that no session names. */
  ghost predicate Orphaned(r: Registry, busCode: string) {
    busCode in r.buses && forall k :: !Backs(r, k, busCode)
  }

  /** Nothing but the registration of a driver for it ends the state of an orphaned bus, and no fix reaches it. */
  lemma OrphanStays(d: Distance, r: Registry, now: int, e: Event, busCode: string)
    requires Orphaned(r, busCode) && !(e.RegisterDriver? && e.busCode == busCode)
    ensures Orphaned(Step(d, r, now, e), busCode)
    ensures Step(d, r, now, e).buses[busCode].recent == r.buses[busCode].recent
  {
    hide Due, Pushed, NewBus;
    var s := Step(d, r, now, e);
    if e.Remove? && e.sid in r.sessions {
      assert !Backs(r, e.sid, busCode);
    }
    if e.DriverLocation? && IsDriver(r, e.sid) {
      assert !Backs(r, e.sid, busCode);
    }
    if e.Sweep? {
      forall k | k in r.sessions
        ensures r.sessions[k].client != Driver(busCode)
      {
        assert !Backs(r, k, busCode);
      }
    }
    forall k
      ensures !Backs(s, k, busCode)
    {
      assert !Backs(r, k, busCode);
    }
  }

  /** So an orphaned bus stays as it is, sweeps or not, until someone registers it again. */
  lemma {:induction false} OrphanUntilRegistered(d: Distance, run: seq<Timed>, m: nat, n: nat, busCode: string)
    requires m <= n <= |run| && Orphaned(After(d, run, m), busCode)
    requires forall i :: m <= i < n ==> !(run[i].event.RegisterDriver? && run[i].event.busCode == busCode)
    ensures Orphaned(After(d, run, n), busCode)
    ensures After(d, run, n).buses[busCode].recent == After(d, run, m).buses[busCode].recent
  {
    hide Step;
    if m < n {
      OrphanUntilRegistered(d, run, m, n - 1, busCode);
      OrphanStays(d, After(d, run, n - 1), run[n - 1].now, run[n - 1].event, busCode);
    }
  }

  lemma RegistrationEndsIt(d: Distance, r: Registry, now: int, e: Event)
    requires e.RegisterDriver?
    ensures !Orphaned(Step(d, r, now, e), e.busCode)
  {
    assert Backs(Step(d, r, now, e), e.sid, e.busCode);
  }

  // ---- Drivers on the air -----------------------------------------------------------

  /** The bus of every driver session is live. */
  ghost predicate OnAir(r: Registry) {
    forall k :: IsDriver(r, k) ==> r.sessions[k].client.busCode in r.buses
  }

  /** The event takes the session away. */
  predicate Leaves(r: Registry, now: int, e: Event, sid: string) {
    (e.Remove? && e.sid == sid) || (e.Sweep? && Stale(r, now, e.timeoutMs, sid))
  }

  /** No driver that leaves shares its bus with one that stays. */
  ghost predicate PartsCleanly(r: Registry, now: int, e: Event) {
    forall j, k :: IsDriver(r, j) && IsDriver(r, k) && Leaves(r, now, e, j) && !Leaves(r, now, e, k) ==>
      r.sessions[j].client.busCode != r.sessions[k].client.busCode
  }

  /** One event keeps all drivers on the air exactly when it parts them cleanly. */
  lemma OnAirAfter(d: Distance, r: Registry, now: int, e: Event)
    requires OnAir(r)
    ensures OnAir(Step(d, r, now, e)) <==> PartsCleanly(r, now, e)
  {
    hide Due, Pushed, NewBus, PingedBus, Stale;
    if e.Remove? {
      RemovalOnAir(d, r, now, e);
    } else if e.Sweep? {
      SweepOnAir(d, r, now, e.timeoutMs);
    }
  }

  lemma RemovalOnAir(d: Distance, r: Registry, now: int, e: Event)
    requires OnAir(r) && e.Remove?
    ensures OnAir(Step(d, r, now, e)) <==> PartsCleanly(r, now, e)
  {
    var s := Step(d, r, now, e);
    if IsDriver(r, e.sid) && OnAir(s) {
      forall j, k | IsDriver(r, j) && IsDriver(r, k) && Leaves(r, now, e, j) && !Leaves(r, now, e, k)
        ensures r.sessions[j].client.busCode != r.sessions[k].client.busCode
      {
        assert IsDriver(s, k);
      }
    }
  }

  lemma SweepOnAir(d: Distance, r: Registry, now: int, timeoutMs: int)
    requires OnAir(r)
    ensures OnAir(Step(d, r, now, Sweep(timeoutMs))) <==> PartsCleanly(r, now, Sweep(timeoutMs))
  {
    hide Stale;
    var e := Sweep(timeoutMs);
    var s := Step(d, r, now, e);
    forall k | IsDriver(s, k)
      ensures IsDriver(r, k) && s.sessions[k] == r.sessions[k] && !Leaves(r, now, e, k)
    {
    }
    if OnAir(s) {
      forall j, k | IsDriver(r, j) && IsDriver(r, k) && Leaves(r, now, e, j) && !Leaves(r, now, e, k)
        ensures r.sessions[j].client.busCode != r.sessions[k].client.busCode
      {
        assert IsDriver(s, k);
        assert !Retired(r, now, timeoutMs, r.sessions[k].client.busCode);
      }
    }
    if PartsCleanly(r, now, e) {
      forall k | IsDriver(s, k)
        ensures s.sessions[k].client.busCode in s.buses
      {
        var b := r.sessions[k].client.busCode;
        forall j | j in r.sessions && Stale(r, now, timeoutMs, j)
          ensures r.sessions[j].client != Driver(b)
        {
          assert Leaves(r, now, e, j) && !Leaves(r, now, e, k);
        }
      }
    }
  }

  lemma EmptyIsOnAir()
    ensures OnAir(EMPTY)
  {
  }

  /** All drivers are on the air all the way through a run exactly when every event in it parts them cleanly. */
  lemma {:induction false} OnAirThroughout(d: Distance, run: seq<Timed>, n: nat)
    requires n <= |run|
    ensures (forall m :: 0 <= m <= n ==> OnAir(After(d, run, m))) <==>
            forall i :: 0 <= i < n ==> PartsCleanly(After(d, run, i), run[i].now, run[i].event)
  {
    hide Step, OnAir, PartsCleanly;
    if n == 0 {
      EmptyIsOnAir();
      assert After(d, run, 0) == EMPTY;
    } else {
      hide After;
      OnAirThroughout(d, run, n - 1);
      var r, now, e := After(d, run, n - 1), run[n - 1].now, run[n - 1].event;
      NextAfter(d, run, n);
      if OnAir(r) {
        OnAirAfter(d, r, now, e);
      }
      if forall i :: 0 <= i < n ==> PartsCleanly(After(d, run, i), run[i].now, run[i].event) {
        assert OnAir(r) && PartsCleanly(r, now, e);
        forall m | 0 <= m <= n
          ensures OnAir(After(d, run, m))
        {
          assert m == n || m <= n - 1;
        }
      }
      if forall m :: 0 <= m <= n ==> OnAir(After(d, run, m)) {
        assert OnAir(After(d, run, n)) && OnAir(r);
      }
    }
  }

  const SHARED_BUS :=
    [Timed(0, RegisterDriver("c", "ann", "MH-1", UNMARKED)), Timed(1, RegisterDriver("e", "bob", "MH-1", UNMARKED)),
     Timed(2, Remove("c"))]

  /** Two drivers register one bus; when the first leaves, the second is left without it. */
  lemma SharedBusGoesOffAir(d: Distance)
    ensures Ordered(SHARED_BUS) && RegistersOnce(d, SHARED_BUS)
    ensures OnAir(After(d, SHARED_BUS, 2)) && IsDriver(After(d, SHARED_BUS, 3), "e") && !OnAir(After(d, SHARED_BUS, 3))
  {
    var run := SHARED_BUS;
    assert "c"[0] != "e"[0];
    assert After(d, run, 0) == EMPTY;
    var r1 := After(d, run, 1);
    assert r1.sessions == map["c" := NewSession(0, Driver("MH-1"), "ann", 0)];
    var r2 := After(d, run, 2);
    assert r2.sessions == r1.sessions["e" := NewSession(1, Driver("MH-1"), "bob", 1)];
    assert r2.buses.Keys == {"MH-1"};
    var r3 := After(d, run, 3);
    assert r3 == Removed(r2, "c");
    assert IsDriver(r3, "e") && "MH-1" !in r3.buses;
  }
}
