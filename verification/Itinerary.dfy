/** Folding the hops of a trip into rides and transfer walks, and what the folding preserves. */
module Itinerary {
  import opened Geo
  import opened Network

  /** A stretch of the station chain: riding from one index to another, or walking into index `hop`. */
  datatype Section = Riding(first: nat, last: nat) | Transferring(hop: nat)

  function From(s: Section): int {
    if s.Riding? then s.first else s.hop - 1
  }

  function To(s: Section): nat {
    if s.Riding? then s.last else s.hop
  }

  /** Where the ride still open after `i` hops began: at the last transfer's target, or at the start. */
  function RideStart(es: seq<Edge>, i: nat): (start: nat)
    requires i <= |es|
    ensures start <= i
    ensures start == 0 || es[start - 1].kind.TRANSFER?
    ensures forall h :: start <= h < i ==> es[h].kind.RIDE?
  {
    if i == 0 then 0 else if es[i - 1].kind.TRANSFER? then i else RideStart(es, i - 1)
  }

  function RideUntil(start: nat, end: nat): seq<Section> {
    if end > start then [Riding(start, end)] else []
  }

  /** The sections closed by the transfers among the first `i` hops. */
  function Closed(es: seq<Edge>, i: nat): seq<Section>
    requires i <= |es|
  {
    if i == 0 then []
    else if es[i - 1].kind.TRANSFER? then
      Closed(es, i - 1) + RideUntil(RideStart(es, i - 1), i - 1) + [Transferring(i)]
    else Closed(es, i - 1)
  }

  function SectionsUpTo(es: seq<Edge>, i: nat): seq<Section>
    requires i <= |es|
  {
    Closed(es, i) + RideUntil(RideStart(es, i), i)
  }

  function Sections(es: seq<Edge>): seq<Section> {
    SectionsUpTo(es, |es|)
  }

  // ---- Folding loses nothing ---------------------------------------------------

  /** The sections follow each other without gap or overlap, from station 0 to station `b`. */
  predicate Tiles(ss: seq<Section>, b: int) {
    if ss == [] then b == 0
    else
      var s := ss[|ss| - 1];
      From(s) < To(s) == b && Tiles(ss[..|ss| - 1], From(s))
  }

  /** The section consists of hops of its own kind. */
  ghost predicate Pure(s: Section, es: seq<Edge>) {
    && 0 <= From(s) <= To(s) <= |es|
    && forall h :: From(s) <= h < To(s) ==> if s.Riding? then es[h].kind.RIDE? else es[h].kind.TRANSFER?
  }

  /** The hops up to station `b` fall into sections of one kind each, and no ride is cut in two. */
  ghost predicate Divides(ss: seq<Section>, es: seq<Edge>, b: int) {
    && Tiles(ss, b)
    && (forall s :: s in ss ==> Pure(s, es))
    && (forall i :: 0 <= i < |ss| - 1 ==> !(ss[i].Riding? && ss[i + 1].Riding?))
  }

  lemma DividesAppend(ss: seq<Section>, es: seq<Edge>, s: Section)
    requires Divides(ss, es, From(s)) && From(s) < To(s) && Pure(s, es)
    requires ss == [] || !(ss[|ss| - 1].Riding? && s.Riding?)
    ensures Divides(ss + [s], es, To(s))
  {
    assert (ss + [s])[..|ss|] == ss;
    hide Pure;
  }

  lemma DividesSplit(ss: seq<Section>, es: seq<Edge>, b: int)
    requires Divides(ss, es, b) && ss != []
    ensures var init, s := ss[..|ss| - 1], ss[|ss| - 1];
      && Divides(init, es, From(s)) && Pure(s, es) && From(s) < To(s) == b
      && (init == [] ==> From(s) == 0)
      && (init != [] ==> To(init[|init| - 1]) == From(s) && Pure(init[|init| - 1], es)
                         && From(init[|init| - 1]) < From(s) && !(init[|init| - 1].Riding? && s.Riding?))
  {
    var n := |ss| - 1;
    assert ss == ss[..n] + [ss[n]];
    assert ss[n] in ss;
    if n > 0 {
      assert ss[n - 1] in ss;
    }
    hide Pure;
  }

  lemma {:induction false} ClosedDivides(es: seq<Edge>, i: nat)
    requires i <= |es|
    ensures Divides(Closed(es, i), es, RideStart(es, i))
    ensures var ss := Closed(es, i); ss == [] || ss[|ss| - 1].Transferring?
    decreases i, 0
  {
    hide Divides;
    if i == 0 {
      NothingDivided(es);
    } else if es[i - 1].kind.TRANSFER? {
      SectionsDivide(es, i - 1);
      DividesAppend(SectionsUpTo(es, i - 1), es, Transferring(i));
    } else {
      ClosedDivides(es, i - 1);
    }
  }

  lemma NothingDivided(es: seq<Edge>)
    ensures Divides([], es, 0)
  {
  }

  /** The fold divides the hops into maximal rides and single transfers ... */
  lemma {:induction false} SectionsDivide(es: seq<Edge>, i: nat)
    requires i <= |es|
    ensures Divides(SectionsUpTo(es, i), es, i)
    decreases i, 1
  {
    hide Divides;
    ClosedDivides(es, i);
    var start := RideStart(es, i);
    if i > start {
      DividesAppend(Closed(es, i), es, Riding(start, i));
    } else {
      assert Closed(es, i) + [] == Closed(es, i);
    }
  }

  lemma {:induction false} RideStartIs(es: seq<Edge>, i: nat, start: nat)
    requires start <= i <= |es| && (start == 0 || es[start - 1].kind.TRANSFER?)
    requires forall h :: start <= h < i ==> es[h].kind.RIDE?
    ensures RideStart(es, i) == start && Closed(es, i) == Closed(es, start)
  {
    if i > start {
      RideStartIs(es, i - 1, start);
    }
  }

  /** ... and it is the only such division. */
  lemma {:induction false} OnlyDivision(ss: seq<Section>, es: seq<Edge>, i: nat)
    requires i <= |es| && Divides(ss, es, i)
    ensures ss == SectionsUpTo(es, i)
    decreases i
  {
    if ss == [] {
      assert i == 0;
    } else {
      hide Divides, Closed;
      var n := |ss| - 1;
      var s, init := ss[n], ss[..n];
      DividesSplit(ss, es, i);
      OnlyDivision(init, es, From(s));
      assert ss == init + [s];
      if s.Riding? {
        if init != [] {
          assert es[From(s) - 1].kind.TRANSFER?;
        }
        RideStartIs(es, i, s.first);
        RideStartIs(es, s.first, s.first);
        assert init == Closed(es, s.first) + [];
      } else {
        ClosedAfterTransfer(es, i);
      }
    }
  }

  lemma ClosedAfterTransfer(es: seq<Edge>, i: nat)
    requires 0 < i <= |es| && es[i - 1].kind.TRANSFER?
    ensures SectionsUpTo(es, i) == SectionsUpTo(es, i - 1) + [Transferring(i)]
  {
  }

  lemma {:induction false} TilesFromZero(ss: seq<Section>, b: int)
    requires Tiles(ss, b)
    ensures b >= 0 && (b == 0 <==> ss == [])
  {
    if ss != [] {
      TilesFromZero(ss[..|ss| - 1], From(ss[|ss| - 1]));
    }
  }

  /** Each section begins at the station where the one before ended. */
  lemma {:induction false} SectionsMeet(ss: seq<Section>, b: int)
    requires Tiles(ss, b) && ss != []
    ensures From(ss[0]) == 0 && To(ss[|ss| - 1]) == b
    ensures forall i :: 0 <= i < |ss| - 1 ==> To(ss[i]) == From(ss[i + 1])
  {
    var n := |ss| - 1;
    if n > 0 {
      SectionsMeet(ss[..n], From(ss[n]));
      assert ss[..n][n - 1] == ss[n - 1];
    }
  }

  /** The hops read back off the sections, one after the other. */
  function Unfold(ss: seq<Section>, es: seq<Edge>): seq<Edge>
    requires forall s :: s in ss ==> 0 <= From(s) <= To(s) <= |es|
  {
    if ss == [] then []
    else
      var s := ss[|ss| - 1];
      Unfold(ss[..|ss| - 1], es) + es[From(s)..To(s)]
  }

  lemma {:induction false} UnfoldTiles(ss: seq<Section>, es: seq<Edge>, b: nat)
    requires Tiles(ss, b) && b <= |es|
    ensures forall s :: s in ss ==> 0 <= From(s) < To(s) <= b
    ensures Unfold(ss, es) == es[..b]
  {
    if ss != [] {
      var n := |ss| - 1;
      TilesFromZero(ss[..n], From(ss[n]));
      UnfoldTiles(ss[..n], es, From(ss[n]));
      assert ss == ss[..n] + [ss[n]];
    }
  }

  function Transfers(ss: seq<Section>): nat {
    if ss == [] then 0 else Transfers(ss[..|ss| - 1]) + if ss[|ss| - 1].Transferring? then 1 else 0
  }

  function TransferHops(es: seq<Edge>, i: nat): nat
    requires i <= |es|
  {
    if i == 0 then 0 else TransferHops(es, i - 1) + if es[i - 1].kind.TRANSFER? then 1 else 0
  }

  lemma TransfersAppend(ss: seq<Section>, s: Section)
    ensures Transfers(ss + [s]) == Transfers(ss) + if s.Transferring? then 1 else 0
  {
    assert (ss + [s])[..|ss|] == ss;
  }

  lemma OpenRideAddsNoTransfer(es: seq<Edge>, i: nat)
    requires i <= |es|
    ensures Transfers(SectionsUpTo(es, i)) == Transfers(Closed(es, i))
  {
    var start := RideStart(es, i);
    if i > start {
      TransfersAppend(Closed(es, i), Riding(start, i));
    } else {
      assert Closed(es, i) + [] == Closed(es, i);
    }
  }

  lemma AfterTransfer(es: seq<Edge>, i: nat)
    requires 0 < i <= |es| && es[i - 1].kind.TRANSFER?
    ensures RideStart(es, i) == i && Closed(es, i) == SectionsUpTo(es, i - 1) + [Transferring(i)]
    ensures SectionsUpTo(es, i) == Closed(es, i)
    ensures TransferHops(es, i) == TransferHops(es, i - 1) + 1
  {
    assert Closed(es, i) + [] == Closed(es, i);
  }

  lemma AfterRide(es: seq<Edge>, i: nat)
    requires 0 < i <= |es| && es[i - 1].kind.RIDE?
    ensures RideStart(es, i) == RideStart(es, i - 1) && Closed(es, i) == Closed(es, i - 1)
    ensures TransferHops(es, i) == TransferHops(es, i - 1)
  {
  }

  lemma AtFirst(es: seq<Edge>)
    ensures RideStart(es, 0) == 0 && Closed(es, 0) == SectionsUpTo(es, 0) == [] && TransferHops(es, 0) == 0
  {
  }

  lemma {:induction false} TransfersCountHops(es: seq<Edge>, i: nat)
    requires i <= |es|
    ensures Transfers(SectionsUpTo(es, i)) == TransferHops(es, i)
  {
    hide Closed, SectionsUpTo, RideStart, TransferHops;
    OpenRideAddsNoTransfer(es, i);
    if i == 0 {
      AtFirst(es);
    } else {
      TransfersCountHops(es, i - 1);
      if es[i - 1].kind.TRANSFER? {
        AfterTransfer(es, i);
        TransfersAppend(SectionsUpTo(es, i - 1), Transferring(i));
      } else {
        AfterRide(es, i);
        OpenRideAddsNoTransfer(es, i - 1);
      }
    }
  }

  /** A trip rides a bus exactly when one of its hops is a ride. */
  lemma RidesSomewhere(es: seq<Edge>)
    ensures (exists s :: s in Sections(es) && s.Riding?) <==> exists e :: e in es && e.kind.RIDE?
  {
    var ss := Sections(es);
    SectionsDivide(es, |es|);
    UnfoldTiles(ss, es, |es|);
    if e :| e in es && e.kind.RIDE? {
      assert es[..|es|] == es;
      var s := SectionWith(ss, es, e);
    }
    if s :| s in ss && s.Riding? {
      assert Pure(s, es) && es[From(s)].kind.RIDE?;
    }
  }

  lemma {:induction false} SectionWith(ss: seq<Section>, es: seq<Edge>, e: Edge) returns (s: Section)
    requires forall s :: s in ss ==> 0 <= From(s) <= To(s) <= |es| && Pure(s, es)
    requires e in Unfold(ss, es)
    ensures s in ss && e.kind.RIDE? == s.Riding?
  {
    var n := |ss| - 1;
    var last := ss[n];
    assert last in ss;
    if e in es[From(last)..To(last)] {
      s := last;
    } else {
      s := SectionWith(ss[..n], es, e);
    }
  }

  // ---- Where the time goes -------------------------------------------------------------

  /** A chain of stations joined by edges of the network, none visited twice. */
  ghost predicate IsChain(d: Distance, nodes: seq<Node>, chain: seq<nat>, es: seq<Edge>) {
    && |chain| == |es| + 1
    && (forall i :: 0 <= i < |chain| ==> chain[i] < |nodes|)
    && (forall i :: 0 <= i < |es| ==> IsEdge(d, nodes, chain[i], es[i]) && es[i].to == chain[i + 1])
    && (forall i, j :: 0 <= i < j < |chain| ==> chain[i] != chain[j])
  }

  function Minutes(es: seq<Edge>, a: int, b: int): real
    requires 0 <= a <= b <= |es|
    decreases b
  {
    if a == b then 0.0 else Minutes(es, a, b - 1) + es[b - 1].minutes
  }

  function Kilometres(es: seq<Edge>, a: int, b: int): real
    requires 0 <= a <= b <= |es|
    decreases b
  {
    if a == b then 0.0 else Kilometres(es, a, b - 1) + es[b - 1].km
  }

  /** Time on the move: the ride minutes, or the walk of a transfer without its wait. */
  function Duration(s: Section, es: seq<Edge>): real
    requires 0 <= From(s) < To(s) <= |es|
  {
    if s.Riding? then Minutes(es, s.first, s.last) else WalkMinutes(es[s.hop - 1].km)
  }

  ghost predicate InRange(ss: seq<Section>, es: seq<Edge>) {
    forall s :: s in ss ==> 0 <= From(s) < To(s) <= |es|
  }

  function Durations(ss: seq<Section>, es: seq<Edge>): real
    requires InRange(ss, es)
  {
    if ss == [] then 0.0
    else
      var s := ss[|ss| - 1];
      assert s in ss;
      Durations(ss[..|ss| - 1], es) + Duration(s, es)
  }

  function Wait(nodes: seq<Node>, chain: seq<nat>, i: nat): real
    requires i < |chain| && chain[i] < |nodes|
  {
    HalfHeadway(nodes[chain[i]].route)
  }

  /** Expected waits charged to the sections: at every transfer's target ... */
  function TransferWaits(ss: seq<Section>, nodes: seq<Node>, chain: seq<nat>): real {
    if ss == [] then 0.0
    else
      var s := ss[|ss| - 1];
      TransferWaits(ss[..|ss| - 1], nodes, chain) +
      if s.Transferring? && s.hop < |chain| && chain[s.hop] < |nodes| then Wait(nodes, chain, s.hop) else 0.0
  }

  /** ... and shown to the rider: at the start of every ride. */
  function RideWaits(ss: seq<Section>, nodes: seq<Node>, chain: seq<nat>): real {
    if ss == [] then 0.0
    else
      var s := ss[|ss| - 1];
      RideWaits(ss[..|ss| - 1], nodes, chain) +
      if s.Riding? && s.first < |chain| && chain[s.first] < |nodes| then Wait(nodes, chain, s.first) else 0.0
  }

  lemma WaitsAppend(ss: seq<Section>, s: Section, nodes: seq<Node>, chain: seq<nat>)
    requires 0 <= From(s) <= To(s) < |chain| && (forall i :: 0 <= i < |chain| ==> chain[i] < |nodes|)
    ensures TransferWaits(ss + [s], nodes, chain) == TransferWaits(ss, nodes, chain) +
            if s.Transferring? then Wait(nodes, chain, s.hop) else 0.0
    ensures RideWaits(ss + [s], nodes, chain) == RideWaits(ss, nodes, chain) +
            if s.Riding? then Wait(nodes, chain, s.first) else 0.0
  {
    assert (ss + [s])[..|ss|] == ss;
  }

  lemma DurationsAppend(ss: seq<Section>, s: Section, es: seq<Edge>)
    requires InRange(ss, es) && 0 <= From(s) < To(s) <= |es|
    ensures InRange(ss + [s], es) && Durations(ss + [s], es) == Durations(ss, es) + Duration(s, es)
  {
    assert (ss + [s])[..|ss|] == ss;
  }

  lemma {:induction false} MinutesSplit(es: seq<Edge>, a: nat, b: nat, c: nat)
    requires a <= b <= c <= |es|
    ensures Minutes(es, a, c) == Minutes(es, a, b) + Minutes(es, b, c)
  {
    if b < c {
      MinutesSplit(es, a, b, c - 1);
    }
  }

  lemma Ranges(es: seq<Edge>, i: nat)
    requires i <= |es|
    ensures InRange(Closed(es, i), es) && InRange(SectionsUpTo(es, i), es)
  {
    hide Closed, SectionsUpTo, RideStart, Pure;
    ClosedDivides(es, i);
    SectionsDivide(es, i);
    UnfoldTiles(Closed(es, i), es, RideStart(es, i));
    UnfoldTiles(SectionsUpTo(es, i), es, i);
  }

  /** Closing the open ride accounts for the hops since it began. */
  lemma OpenRide(d: Distance, nodes: seq<Node>, chain: seq<nat>, es: seq<Edge>, i: nat)
    requires IsChain(d, nodes, chain, es) && i <= |es| && InRange(Closed(es, i), es)
    ensures var ss, closed, start := SectionsUpTo(es, i), Closed(es, i), RideStart(es, i);
      && InRange(ss, es)
      && Durations(ss, es) == Durations(closed, es) + Minutes(es, start, i)
      && TransferWaits(ss, nodes, chain) == TransferWaits(closed, nodes, chain)
      && RideWaits(ss, nodes, chain) == RideWaits(closed, nodes, chain) +
         if i > start then Wait(nodes, chain, start) else 0.0
  {
    var closed, start := Closed(es, i), RideStart(es, i);
    if i > start {
      DurationsAppend(closed, Riding(start, i), es);
      WaitsAppend(closed, Riding(start, i), nodes, chain);
    } else {
      assert closed + [] == closed;
    }
  }

  /** No minute is lost or counted twice: the hops cost the time on the move plus the wait at each transfer. */
  lemma {:induction false} TimeIsConserved(d: Distance, nodes: seq<Node>, chain: seq<nat>, es: seq<Edge>, i: nat)
    requires IsChain(d, nodes, chain, es) && i <= |es|
    ensures InRange(Closed(es, i), es) && InRange(SectionsUpTo(es, i), es)
    ensures Minutes(es, 0, i) == Durations(SectionsUpTo(es, i), es) + TransferWaits(SectionsUpTo(es, i), nodes, chain)
    ensures Minutes(es, 0, RideStart(es, i)) ==
            Durations(Closed(es, i), es) + TransferWaits(Closed(es, i), nodes, chain)
  {
    hide WalkMinutes, IsEdge, Closed, SectionsUpTo, RideStart, InRange, Durations, TransferWaits, RideWaits;
    hide Wait, Minutes;
    Ranges(es, i);
    if i == 0 {
      AtFirst(es);
      NothingYet(es, nodes, chain);
    } else {
      NextMinutes(es, i);
      TimeIsConserved(d, nodes, chain, es, i - 1);
      if es[i - 1].kind.TRANSFER? {
        var ss, s := SectionsUpTo(es, i - 1), Transferring(i);
        AfterTransfer(es, i);
        DurationsAppend(ss, s, es);
        WaitsAppend(ss, s, nodes, chain);
        TransferCost(d, nodes, chain, es, i - 1);
      } else {
        AfterRide(es, i);
      }
    }
    OpenRide(d, nodes, chain, es, i);
    MinutesSplit(es, 0, RideStart(es, i), i);
  }

  lemma TransferCost(d: Distance, nodes: seq<Node>, chain: seq<nat>, es: seq<Edge>, h: nat)
    requires IsChain(d, nodes, chain, es) && h < |es| && es[h].kind.TRANSFER?
    ensures es[h].minutes == WalkMinutes(es[h].km) + Wait(nodes, chain, h + 1)
  {
    hide WalkMinutes;
    assert IsEdge(d, nodes, chain[h], es[h]);
  }

  /** A bus is boarded at the start and off every transfer. */
  predicate Boards(es: seq<Edge>, b: nat)
    requires b <= |es|
  {
    b == 0 || es[b - 1].kind.TRANSFER?
  }

  /** Every boarding before station `i` - at the start or off a transfer - goes on with a ride. */
  ghost predicate BoardingsRide(es: seq<Edge>, i: nat)
    requires i <= |es|
  {
    forall b {:trigger Boards(es, b)} :: 0 <= b < i && Boards(es, b) ==> es[b].kind.RIDE?
  }

  /** Every boarding of the whole trip goes on with a ride; in particular the last hop is none. */
  ghost predicate EveryBoardingRides(es: seq<Edge>) {
    es != [] && es[|es| - 1].kind.RIDE? && BoardingsRide(es, |es|)
  }

  lemma {:induction false} ClosedWaits(d: Distance, nodes: seq<Node>, chain: seq<nat>, es: seq<Edge>, i: nat)
    requires LaidOut(nodes) && IsChain(d, nodes, chain, es) && i <= |es|
    ensures var start, closed := RideStart(es, i), Closed(es, i);
      var unmet := Wait(nodes, chain, 0) + TransferWaits(closed, nodes, chain) - RideWaits(closed, nodes, chain);
      && unmet >= Wait(nodes, chain, start) > 0.0
      && (unmet == Wait(nodes, chain, start) <==> BoardingsRide(es, start))
  {
    hide IsEdge, LaidOut, Closed, SectionsUpTo, RideStart, BoardingsRide, InRange, Durations, Minutes, Wait;
    hide TransferWaits, RideWaits;
    WaitIsPositive(nodes, chain, RideStart(es, i));
    if i == 0 {
      AtFirst(es);
      NothingYet(es, nodes, chain);
    } else {
      ClosedWaits(d, nodes, chain, es, i - 1);
      if es[i - 1].kind.TRANSFER? {
        AfterTransfer(es, i);
        Ranges(es, i - 1);
        OpenRide(d, nodes, chain, es, i - 1);
        WaitsAppend(SectionsUpTo(es, i - 1), Transferring(i), nodes, chain);
        BoardingsUpTo(es, i - 1);
      } else {
        AfterRide(es, i);
      }
    }
  }

  /** Between the last transfer and station `i` nobody boards. */
  lemma NobodyBoards(es: seq<Edge>, i: nat)
    requires i <= |es| && RideStart(es, i) < i
    ensures BoardingsRide(es, i) <==> BoardingsRide(es, RideStart(es, i))
  {
    var start := RideStart(es, i);
    if BoardingsRide(es, start) {
      forall b | 0 <= b < i && Boards(es, b)
        ensures es[b].kind.RIDE?
      {
        if start < b {
          assert es[b - 1].kind.RIDE?;
        }
      }
    }
  }

  lemma NothingYet(es: seq<Edge>, nodes: seq<Node>, chain: seq<nat>)
    ensures BoardingsRide(es, 0) && TransferWaits([], nodes, chain) == RideWaits([], nodes, chain) == 0.0
    ensures InRange([], es) && Durations([], es) == Minutes(es, 0, 0) == 0.0
  {
  }

  lemma NextMinutes(es: seq<Edge>, i: nat)
    requires 0 < i <= |es|
    ensures Minutes(es, 0, i) == Minutes(es, 0, i - 1) + es[i - 1].minutes
  {
  }

  lemma WaitIsPositive(nodes: seq<Node>, chain: seq<nat>, i: nat)
    requires LaidOut(nodes) && i < |chain| && chain[i] < |nodes|
    ensures Wait(nodes, chain, i) > 0.0
  {
    PlaceOf(nodes, chain[i]);
  }

  lemma BoardingsUpTo(es: seq<Edge>, i: nat)
    requires i < |es| && es[i].kind.TRANSFER?
    ensures BoardingsRide(es, i + 1) <==> RideStart(es, i) < i && BoardingsRide(es, RideStart(es, i))
  {
    if RideStart(es, i) < i {
      NobodyBoards(es, i);
      assert !Boards(es, i) by {
        assert es[i - 1].kind.RIDE?;
      }
    } else {
      assert Boards(es, i);
    }
  }

  /**
   * The waits shown on the ride legs never exceed those charged at boardings,
   * and make them up exactly when every boarding goes on with a ride.
   */
  lemma ShownWaits(d: Distance, nodes: seq<Node>, chain: seq<nat>, es: seq<Edge>)
    requires LaidOut(nodes) && IsChain(d, nodes, chain, es)
    ensures var ss := Sections(es);
      var charged := Wait(nodes, chain, 0) + TransferWaits(ss, nodes, chain);
      && RideWaits(ss, nodes, chain) <= charged
      && (RideWaits(ss, nodes, chain) == charged <==> EveryBoardingRides(es))
  {
    hide IsEdge, WalkMinutes;
    var n := |es|;
    ClosedWaits(d, nodes, chain, es, n);
    Ranges(es, n);
    OpenRide(d, nodes, chain, es, n);
    var start := RideStart(es, n);
    if start < n {
      assert es[n - 1].kind.RIDE?;
      NobodyBoards(es, n);
    }
  }

  // ---- Rides never double back ----------------------------------------------------------

  function StopAt(nodes: seq<Node>, chain: seq<nat>, i: nat): int
    requires i < |chain| && chain[i] < |nodes|
  {
    nodes[chain[i]].stopIndex
  }

  /** Station `i` of a ride from station `a` lies on the same route, `i - a` stops further in one direction. */
  ghost predicate InLine(nodes: seq<Node>, chain: seq<nat>, a: nat, i: nat, step: int)
    requires a < |chain| && i < |chain| && chain[a] < |nodes| && chain[i] < |nodes|
  {
    && nodes[chain[i]].route == nodes[chain[a]].route
    && StopAt(nodes, chain, i) == StopAt(nodes, chain, a) + if step == 1 then i - a else a - i
  }

  /** From station `a` to station `b` the ride stays on one route and moves by one stop, always the same way. */
  ghost predicate Straight(nodes: seq<Node>, chain: seq<nat>, a: nat, b: nat, step: int) {
    && a <= b < |chain| && (forall i :: 0 <= i < |chain| ==> chain[i] < |nodes|)
    && (step == 1 || step == -1)
    && forall i: nat :: a <= i <= b ==> InLine(nodes, chain, a, i, step)
  }

  lemma {:induction false} RideIsStraight(d: Distance, nodes: seq<Node>, chain: seq<nat>, es: seq<Edge>, a: nat, b: nat)
    returns (step: int)
    requires LaidOut(nodes) && IsChain(d, nodes, chain, es)
    requires a < b <= |es| && forall h :: a <= h < b ==> es[h].kind.RIDE?
    ensures Straight(nodes, chain, a, b, step)
    decreases b
  {
    hide IsEdge, LaidOut;
    RideHop(d, nodes, chain, es, b - 1);
    if b == a + 1 {
      step := StopAt(nodes, chain, b) - StopAt(nodes, chain, a);
    } else {
      step := RideIsStraight(d, nodes, chain, es, a, b - 1);
      assert InLine(nodes, chain, a, b - 1, step) && InLine(nodes, chain, a, b - 2, step);
      NoTurningBack(nodes, chain[b - 2], chain[b]);
      assert InLine(nodes, chain, a, b, step);
    }
  }

  lemma NoTurningBack(nodes: seq<Node>, u: nat, v: nat)
    requires LaidOut(nodes) && u < |nodes| && v < |nodes| && u != v && nodes[u].route == nodes[v].route
    ensures nodes[u].stopIndex != nodes[v].stopIndex
  {
    assert SameRoute(nodes[u], nodes[v]);
  }

  lemma RideHop(d: Distance, nodes: seq<Node>, chain: seq<nat>, es: seq<Edge>, h: nat)
    requires LaidOut(nodes) && IsChain(d, nodes, chain, es) && h < |es| && es[h].kind.RIDE?
    ensures nodes[chain[h]].route == nodes[chain[h + 1]].route
    ensures StopAt(nodes, chain, h + 1) - StopAt(nodes, chain, h) in {1, -1}
  {
    hide RideEdge, RideKm;
    assert IsEdge(d, nodes, chain[h], es[h]);
  }
}
