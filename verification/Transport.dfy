/** What the transport does to the registry, and which connections it holds open, over whole runs. */
module Transport {
  import opened Geo
  import Tracking
  import opened Histories
  import opened Departures

  /** The event the transport makes of an action, if any. */
  function EventOf(now: int, a: Action): seq<Tracking.Timed> {
    match a
    case Connect(_) => []
    case Message(e) => [Tracking.Timed(now, e)]
    case TransportError(sid) => [Tracking.Timed(now, Tracking.Remove(sid))]
    case Close(sid) => [Tracking.Timed(now, Tracking.Remove(sid))]
    case SweepStale => [Tracking.Timed(now, Tracking.Sweep(120_000))]
  }

  /** The events of the first `n` actions. */
  function EventsOf(run: seq<Timed>, n: nat): seq<Tracking.Timed>
    requires n <= |run|
  {
    if n == 0 then [] else EventsOf(run, n - 1) + EventOf(run[n - 1].now, run[n - 1].action)
  }

  lemma {:induction false} SameStart(d: Distance, run: seq<Tracking.Timed>, more: seq<Tracking.Timed>, n: nat)
    requires n <= |run|
    ensures Tracking.After(d, run + more, n) == Tracking.After(d, run, n)
  {
    hide Tracking.Step;
    if n > 0 {
      SameStart(d, run, more, n - 1);
      assert (run + more)[n - 1] == run[n - 1];
    }
  }

  lemma {:induction false} NextEvent(d: Distance, run: seq<Tracking.Timed>, e: Tracking.Timed)
    ensures Tracking.After(d, run + [e], |run| + 1) ==
            Tracking.Step(d, Tracking.After(d, run, |run|), e.now, e.event)
  {
    hide Tracking.Step;
    SameStart(d, run, [e], |run|);
  }

  lemma RegistryStep(d: Distance, s: System, now: int, a: Action)
    ensures var events := EventOf(now, a);
      && |events| <= 1
      && Act(d, s, now, a).reg ==
         if events == [] then s.reg else Tracking.Step(d, s.reg, events[0].now, events[0].event)
  {
  }

  /** The registry behind the transport has gone through exactly these events. */
  lemma {:induction false} RegistryOverRuns(d: Distance, run: seq<Timed>, n: nat)
    requires n <= |run|
    ensures var events := EventsOf(run, n); After(d, run, n).reg == Tracking.After(d, events, |events|)
  {
    hide Tracking.After, Act, EventOf;
    if n == 0 {
      NoEvents(d);
    } else {
      RegistryOverRuns(d, run, n - 1);
      var before, next := EventsOf(run, n - 1), EventOf(run[n - 1].now, run[n - 1].action);
      RegistryStep(d, After(d, run, n - 1), run[n - 1].now, run[n - 1].action);
      if next == [] {
        assert before + next == before;
      } else {
        NextEvent(d, before, next[0]);
        assert next == [next[0]];
      }
    }
  }

  lemma NoEvents(d: Distance)
    ensures Tracking.After(d, [], 0) == Tracking.EMPTY
  {
  }

  /** Connected, and neither closed nor failed since, nor swept away as the connection of a silent session. */
  ghost predicate IsOpen(run: seq<Timed>, sid: string, n: nat)
    requires n <= |run|
  {
    if n == 0 then false
    else
      match run[n - 1].action
      case Connect(s) => s == sid || IsOpen(run, sid, n - 1)
      case Message(_) => IsOpen(run, sid, n - 1)
      case TransportError(s) => s != sid && IsOpen(run, sid, n - 1)
      case Close(s) => s != sid && IsOpen(run, sid, n - 1)
      case SweepStale =>
        var events := EventsOf(run, n - 1);
        && IsOpen(run, sid, n - 1)
        && !(Present(events, sid, |events|) && LastHeard(events, sid, |events|) < run[n - 1].now - 120_000)
  }

  lemma OpenStep(d: Distance, s: System, now: int, a: Action, sid: string)
    ensures sid in Act(d, s, now, a).open <==>
            match a
            case Connect(t) => t == sid || sid in s.open
            case Message(_) => sid in s.open
            case TransportError(t) => t != sid && sid in s.open
            case Close(t) => t != sid && sid in s.open
            case SweepStale => sid in s.open && !(sid in s.reg.sessions && s.reg.sessions[sid].lastSeen < now - 120_000)
  {
    hide Tracking.Step;
  }

  lemma {:induction false} OpenOverRuns(d: Distance, run: seq<Timed>, sid: string, n: nat)
    requires n <= |run|
    ensures sid in After(d, run, n).open <==> IsOpen(run, sid, n)
  {
    hide Act, Tracking.After, Present, LastHeard;
    if n > 0 {
      var events := EventsOf(run, n - 1);
      OpenOverRuns(d, run, sid, n - 1);
      OpenStep(d, After(d, run, n - 1), run[n - 1].now, run[n - 1].action, sid);
      RegistryOverRuns(d, run, n - 1);
      SessionsOverRuns(d, events, sid, |events|);
    }
  }

  /** Somebody is registered on a connection exactly as the events of the transport tell. */
  lemma {:induction false} PresentOverRuns(d: Distance, run: seq<Timed>, sid: string, n: nat)
    requires n <= |run|
    ensures var events := EventsOf(run, n);
      sid in After(d, run, n).reg.sessions <==> Present(events, sid, |events|)
  {
    hide After, Tracking.After, Present;
    var events := EventsOf(run, n);
    RegistryOverRuns(d, run, n);
    SessionsOverRuns(d, events, sid, |events|);
  }

  /** Action `i` is a registration on a connection that then holds the driver numbered `id`. */
  ghost predicate Overwrites(d: Distance, run: seq<Timed>, i: nat, id: nat)
    requires i < |run|
  {
    var a, r := run[i].action, After(d, run, i).reg;
    && a.Message? && Tracking.Registers(a.event)
    && Tracking.IsDriver(r, a.event.sid) && r.sessions[a.event.sid].id == id
  }

  /** The overwritten registrations are those, and no others. */
  lemma {:induction false} OverwrittenOverRuns(d: Distance, run: seq<Timed>, n: nat, id: nat)
    requires n <= |run|
    ensures id in After(d, run, n).overwritten <==> exists i :: 0 <= i < n && Overwrites(d, run, i, id)
  {
    hide Tracking.Step, Overwrites, After;
    if n == 0 {
      NothingOverwritten(d, run);
    } else {
      OverwrittenOverRuns(d, run, n - 1, id);
      OverwrittenNext(d, run, n, id);
      if i :| 0 <= i < n && Overwrites(d, run, i, id) {
        assert i == n - 1 || i < n - 1;
      }
    }
  }

  lemma NothingOverwritten(d: Distance, run: seq<Timed>)
    ensures After(d, run, 0).overwritten == {}
  {
  }

  lemma {:induction false} OverwrittenNext(d: Distance, run: seq<Timed>, n: nat, id: nat)
    requires 0 < n <= |run|
    ensures id in After(d, run, n).overwritten <==>
            id in After(d, run, n - 1).overwritten || Overwrites(d, run, n - 1, id)
  {
    hide Tracking.Step;
  }
}
