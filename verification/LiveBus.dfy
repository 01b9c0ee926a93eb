/** Telemetry of one bus: a bounded history of GPS fixes and the speed measured from it. */
module LiveBus {
  import opened Geo
  import opened Options

  const RING_BUFFER_SIZE := 60
  const MIN_SAMPLE_GAP_MS := 500
  const MIN_OBSERVED_MS := 3000
  const MAX_PLAUSIBLE_SPEED_KMH := 120.0
  const MS_PER_HOUR := 3_600_000.0

  datatype Occupancy = LOW | MEDIUM | FULL

  datatype TimedPoint = TimedPoint(at: Point, timestamp: int)

  /** What identifies the bus's route to riders, as far as it is known. */
  datatype RouteMark = RouteMark(number: Option<int>, color: Option<string>)

  const UNMARKED := RouteMark(None, None)

  datatype BusView = BusView(driverId: string, mark: RouteMark, recent: seq<TimedPoint>, visible: bool,
                             accuracy: Option<real>, lastSeen: int, occupancy: Option<Occupancy>)

  function Pushed(recent: seq<TimedPoint>, p: TimedPoint): seq<TimedPoint> {
    (if |recent| == RING_BUFFER_SIZE then recent[1..] else recent) + [p]
  }

  function NewBus(driverId: string, mark: RouteMark, now: int): BusView {
    BusView(driverId, mark, [], true, None, now, None)
  }

  function PingedBus(b: BusView, at: Point, now: int, accuracy: Option<real>, visible: Option<bool>): BusView {
    b.(recent := Pushed(b.recent, TimedPoint(at, now)), lastSeen := now,
       accuracy := if accuracy.Some? then accuracy else b.accuracy,
       visible := if visible.Some? then visible.value else b.visible)
  }

  // ---- The buffer ---------------------------------------------------------------

  /** The buffer after these fixes were added to an empty one, in this order. */
  function AfterAll(points: seq<TimedPoint>): seq<TimedPoint> {
    if points == [] then [] else Pushed(AfterAll(points[..|points| - 1]), points[|points| - 1])
  }

  /** The history is always the last sixty fixes, or all of them while there are fewer, in order. */
  lemma {:induction false} HistoryIsTheLatest(points: seq<TimedPoint>)
    ensures AfterAll(points) ==
            if |points| <= RING_BUFFER_SIZE then points else points[|points| - RING_BUFFER_SIZE..]
  {
    if points != [] {
      var n := |points| - 1;
      HistoryIsTheLatest(points[..n]);
      assert points == points[..n] + [points[n]];
    }
  }

  // ---- The speed -------------------------------------------------------------------

  /** Whether the gap before fix `i` is long enough to be measured; an out-of-order fix never is. */
  predicate Measured(ps: seq<TimedPoint>, i: int) {
    0 < i < |ps| && ps[i].timestamp - ps[i - 1].timestamp >= MIN_SAMPLE_GAP_MS
  }

  function GapKm(d: Distance, ps: seq<TimedPoint>, i: int): real
    requires 0 < i < |ps|
  {
    d(ps[i - 1].at, ps[i].at)
  }

  function GapMs(ps: seq<TimedPoint>, i: int): int
    requires 0 < i < |ps|
  {
    ps[i].timestamp - ps[i - 1].timestamp
  }

  function TotalKm(d: Distance, ps: seq<TimedPoint>, n: nat): real
    requires n <= |ps|
  {
    if n < 2 then 0.0 else TotalKm(d, ps, n - 1) + if Measured(ps, n - 1) then GapKm(d, ps, n - 1) else 0.0
  }

  function TotalMs(ps: seq<TimedPoint>, n: nat): (ms: nat)
    requires n <= |ps|
  {
    if n < 2 then 0 else TotalMs(ps, n - 1) + if Measured(ps, n - 1) then GapMs(ps, n - 1) else 0
  }

  /** Kilometres per hour over some milliseconds. */
  function Kmh(km: real, ms: int): real
    requires ms > 0
  {
    km / (ms as real / MS_PER_HOUR)
  }

  function Speed(d: Distance, ps: seq<TimedPoint>): Option<real> {
    if TotalMs(ps, |ps|) < MIN_OBSERVED_MS then None
    else
      var kmh := Kmh(TotalKm(d, ps, |ps|), TotalMs(ps, |ps|));
      Some(if kmh < MAX_PLAUSIBLE_SPEED_KMH then kmh else MAX_PLAUSIBLE_SPEED_KMH)
  }

  function GapKmh(d: Distance, ps: seq<TimedPoint>, i: int): real
    requires Measured(ps, i)
  {
    Kmh(GapKm(d, ps, i), GapMs(ps, i))
  }

  lemma KmhScales(km: real, ms: int, v: real)
    requires ms > 0
    ensures v <= Kmh(km, ms) <==> Times(v, ms as real) <= Times(MS_PER_HOUR, km)
    ensures v >= Kmh(km, ms) <==> Times(v, ms as real) >= Times(MS_PER_HOUR, km)
  {
    var t := ms as real / MS_PER_HOUR;
    var kmh := Kmh(km, ms);
    assert kmh * t == km;
    assert t * MS_PER_HOUR == ms as real;
    ScaleBoth(v, kmh, t);
    assert Times(v, ms as real) == v * t * MS_PER_HOUR;
  }

  lemma ScaleBoth(v: real, w: real, t: real)
    requires t > 0.0
    ensures v <= w <==> v * t <= w * t
    ensures v >= w <==> v * t >= w * t
  {
    if v < w {
      assert (w - v) * t > 0.0;
    } else if v > w {
      assert (v - w) * t > 0.0;
    }
  }

  /** A measured gap at least as slow, and one at least as fast, as the average over all of them. */
  lemma {:induction false} SlowestAndFastest(d: Distance, ps: seq<TimedPoint>, n: nat) returns (slow: int, fast: int)
    requires n <= |ps| && TotalMs(ps, n) > 0
    ensures Measured(ps, slow) && Measured(ps, fast) && slow < n && fast < n
    ensures GapKmh(d, ps, slow) <= Kmh(TotalKm(d, ps, n), TotalMs(ps, n)) <= GapKmh(d, ps, fast)
  {
    hide Kmh;
    var i := n - 1;
    if !Measured(ps, i) {
      slow, fast := SlowestAndFastest(d, ps, n - 1);
    } else if TotalMs(ps, n - 1) == 0 {
      NothingMeasured(d, ps, n - 1);
      slow, fast := i, i;
    } else {
      slow, fast := SlowestAndFastest(d, ps, n - 1);
      var km, ms := TotalKm(d, ps, n - 1), TotalMs(ps, n - 1);
      if GapKmh(d, ps, i) < GapKmh(d, ps, slow) {
        slow := i;
      }
      if GapKmh(d, ps, i) > GapKmh(d, ps, fast) {
        fast := i;
      }
      Mediant(km, ms, GapKm(d, ps, i), GapMs(ps, i), GapKmh(d, ps, slow));
      Mediant(km, ms, GapKm(d, ps, i), GapMs(ps, i), GapKmh(d, ps, fast));
    }
  }

  lemma {:induction false} NothingMeasured(d: Distance, ps: seq<TimedPoint>, n: nat)
    requires n <= |ps| && TotalMs(ps, n) == 0
    ensures TotalKm(d, ps, n) == 0.0
  {
    if n >= 2 {
      NothingMeasured(d, ps, n - 1);
    }
  }

  /** Adding a stretch no slower than `v` to one no slower than `v` gives one no slower than `v`; likewise no faster. */
  lemma Mediant(km: real, ms: int, gapKm: real, gapMs: int, v: real)
    requires ms > 0 && gapMs > 0
    ensures v <= Kmh(km, ms) && v <= Kmh(gapKm, gapMs) ==> v <= Kmh(km + gapKm, ms + gapMs)
    ensures v >= Kmh(km, ms) && v >= Kmh(gapKm, gapMs) ==> v >= Kmh(km + gapKm, ms + gapMs)
  {
    hide Kmh, Times;
    KmhScales(km, ms, v);
    KmhScales(gapKm, gapMs, v);
    KmhScales(km + gapKm, ms + gapMs, v);
    Spread(v, ms as real, gapMs as real);
    Spread(MS_PER_HOUR, km, gapKm);
    assert (ms + gapMs) as real == ms as real + gapMs as real;
  }

  lemma Spread(v: real, x: real, y: real)
    ensures Times(v, x + y) == Times(v, x) + Times(v, y)
  {
  }

  lemma {:induction false} KmIsNotNegative(d: Distance, ps: seq<TimedPoint>, n: nat)
    requires n <= |ps|
    ensures TotalKm(d, ps, n) >= 0.0
  {
    if n >= 2 {
      KmIsNotNegative(d, ps, n - 1);
    }
  }

  /**
   * A speed is reported only over three measured seconds or more; it lies in [0, 120] and, before the clamp,
   * between the speeds of two of the measured gaps.
   */
  lemma SpeedIsHonest(d: Distance, ps: seq<TimedPoint>) returns (slow: int, fast: int)
    requires Speed(d, ps).Some?
    ensures TotalMs(ps, |ps|) >= MIN_OBSERVED_MS
    ensures 0.0 <= Speed(d, ps).value <= MAX_PLAUSIBLE_SPEED_KMH
    ensures Measured(ps, slow) && Measured(ps, fast)
    ensures GapKmh(d, ps, slow) <= GapKmh(d, ps, fast)
    ensures Speed(d, ps).value <= GapKmh(d, ps, fast)
    ensures Speed(d, ps).value < MAX_PLAUSIBLE_SPEED_KMH ==> GapKmh(d, ps, slow) <= Speed(d, ps).value
  {
    hide GapKmh, Kmh;
    slow, fast := SlowestAndFastest(d, ps, |ps|);
    KmIsNotNegative(d, ps, |ps|);
    NotNegative(TotalKm(d, ps, |ps|), TotalMs(ps, |ps|));
  }

  // ---- What is measured --------------------------------------------------------------

  /** Between two fixes all of the gap is measured, if it is half a second or more, and otherwise nothing. */
  lemma TwoFixes(d: Distance, p: TimedPoint, q: TimedPoint)
    ensures var gap := q.timestamp - p.timestamp;
      && TotalMs([p, q], 2) == (if gap >= 500 then gap else 0)
      && TotalKm(d, [p, q], 2) == if gap >= 500 then d(p.at, q.at) else 0.0
    ensures TotalMs([p], 1) == TotalMs([], 0) == 0 && TotalKm(d, [p], 1) == TotalKm(d, [], 0) == 0.0
  {
    assert TotalMs([p, q], 1) == 0 && TotalKm(d, [p, q], 1) == 0.0;
  }

  lemma {:induction false} TotalsOfStart(d: Distance, ps: seq<TimedPoint>, m: nat, n: nat)
    requires n <= m <= |ps|
    ensures TotalMs(ps[..m], n) == TotalMs(ps, n) && TotalKm(d, ps[..m], n) == TotalKm(d, ps, n)
  {
    if n >= 2 {
      TotalsOfStart(d, ps, m, n - 1);
    }
  }

  lemma {:induction false} TotalsFrom(d: Distance, ps: seq<TimedPoint>, k: nat, n: nat)
    requires k < n <= |ps|
    ensures TotalMs(ps, n) == TotalMs(ps, k + 1) + TotalMs(ps[k..], n - k)
    ensures TotalKm(d, ps, n) == TotalKm(d, ps, k + 1) + TotalKm(d, ps[k..], n - k)
    decreases n
  {
    if k + 1 < n {
      TotalsFrom(d, ps, k, n - 1);
      assert ps[k..][n - 1 - k] == ps[n - 1] && ps[k..][n - 2 - k] == ps[n - 2];
    }
  }

  /** Cut at any of its fixes, a history measures what its two parts measure: so every measured gap counts, once. */
  lemma TotalsAdd(d: Distance, ps: seq<TimedPoint>, k: nat)
    requires k < |ps|
    ensures TotalMs(ps, |ps|) == TotalMs(ps[..k + 1], k + 1) + TotalMs(ps[k..], |ps| - k)
    ensures TotalKm(d, ps, |ps|) == TotalKm(d, ps[..k + 1], k + 1) + TotalKm(d, ps[k..], |ps| - k)
  {
    TotalsOfStart(d, ps, k + 1, k + 1);
    TotalsFrom(d, ps, k, |ps|);
  }

  /**
   * A speed is reported exactly when three seconds or more were measured. It is 120 km/h if the measured distance was
   * covered at least as fast, and otherwise such that in the measured time it gives the measured distance.
   */
  lemma SpeedIsMeasured(d: Distance, ps: seq<TimedPoint>)
    ensures var ms, km, speed := TotalMs(ps, |ps|), TotalKm(d, ps, |ps|), Speed(d, ps);
      && (speed.Some? <==> ms >= 3000)
      && (speed.Some? ==>
            if 3_600_000.0 * km >= 120.0 * ms as real then speed.value == 120.0
            else speed.value < 120.0 && speed.value * ms as real == 3_600_000.0 * km)
  {
    var ms, km := TotalMs(ps, |ps|), TotalKm(d, ps, |ps|);
    if ms >= 3000 {
      KmhScales(km, ms, 120.0);
      KmhScales(km, ms, Kmh(km, ms));
    }
  }

  lemma NotNegative(km: real, ms: int)
    requires km >= 0.0 && ms > 0
    ensures Kmh(km, ms) >= 0.0
  {
    hide Kmh;
    KmhScales(km, ms, 0.0);
    assert Times(0.0, ms as real) == 0.0;
  }

  // ---- The bus as an object -------------------------------------------------------------

  class LiveBusState {
    const busCode: string
    const driverId: string
    const routeNumber: Option<int>
    const routeColor: Option<string>
    var recent: seq<TimedPoint>
    var visible: bool
    var accuracy: Option<real>
    var lastSeen: int
    var occupancy: Option<Occupancy>

    constructor (busCode: string, driverId: string, mark: RouteMark, now: int)
      ensures this.busCode == busCode && View() == NewBus(driverId, mark, now)
    {
      this.busCode, this.driverId, routeNumber, routeColor := busCode, driverId, mark.number, mark.color;
      recent, visible, accuracy, lastSeen, occupancy := [], true, None, now, None;
    }

    function View(): BusView
      reads this
    {
      BusView(driverId, RouteMark(routeNumber, routeColor), recent, visible, accuracy, lastSeen, occupancy)
    }

    method AddPoint(at: Point, timestamp: int)
      modifies this`recent, this`lastSeen
      ensures recent == Pushed(old(recent), TimedPoint(at, timestamp)) && lastSeen == timestamp
    {
      if |recent| == RING_BUFFER_SIZE {
        recent := recent[1..];
      }
      recent := recent + [TimedPoint(at, timestamp)];
      lastSeen := timestamp;
    }

    /** A fix, with whatever else the driver's message says. */
    method Ping(now: int, at: Point, newAccuracy: Option<real>, shown: Option<bool>)
      modifies this
      ensures View() == PingedBus(old(View()), at, now, newAccuracy, shown)
    {
      AddPoint(at, now);
      if newAccuracy.Some? {
        accuracy := newAccuracy;
      }
      if shown.Some? {
        visible := shown.value;
      }
    }

    method SpeedKmh(d: Distance) returns (speed: Option<real>)
      ensures speed == Speed(d, recent)
    {
      if |recent| < 2 {
        return None;
      }
      var totalKm, totalMs := 0.0, 0;
      for i := 0 to |recent|
        invariant totalKm == TotalKm(d, recent, i) && totalMs == TotalMs(recent, i)
      {
        if i > 0 {
          var dt := recent[i].timestamp - recent[i - 1].timestamp;
          if dt >= MIN_SAMPLE_GAP_MS {
            totalKm := totalKm + d(recent[i - 1].at, recent[i].at);
            totalMs := totalMs + dt;
          }
        }
      }
      if totalMs < MIN_OBSERVED_MS {
        return None;
      }
      var kmh := totalKm / (totalMs as real / MS_PER_HOUR);
      speed := Some(if kmh < MAX_PLAUSIBLE_SPEED_KMH then kmh else MAX_PLAUSIBLE_SPEED_KMH);
    }
  }
}
