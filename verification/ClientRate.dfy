/** What the limiter still grants a client from a given moment on, as its window then tells. */
module ClientRate {
  import opened RateLimiter

  /** The client's window still counts at `from`; whoever asks has made all its attempts before. */
  predicate Live(ws: Windows, key: string, from: int) {
    key in ws && !Expired(ws[key], from)
  }

  /** How long into the stretch the next window can begin at the earliest. */
  function Delay(ws: Windows, key: string, from: int): int {
    if Live(ws, key, from) then ws[key].startedAt + 60_001 - from else 0
  }

  /** What the live window has left. */
  function Left(ws: Windows, key: string, from: int): nat {
    if Live(ws, key, from) then 10 - Capped(ws[key].count) else 0
  }

  /** What the windows begun within `room` ms, one as soon as another has run out, can grant. */
  function Renewed(room: int): nat {
    if room < 0 then 0 else 10 * (room / 60_001 + 1)
  }

  /** The most a client can be granted in the `width` ms from `from` on. */
  function Most(ws: Windows, key: string, from: int, width: nat): nat {
    Left(ws, key, from) + Renewed(width - Delay(ws, key, from))
  }

  /** The first `n` attempts are those before `from`. */
  ghost predicate Splits(run: seq<Attempt>, n: nat, from: int) {
    && n <= |run| && Ordered(run)
    && (forall i :: 0 <= i < n ==> run[i].now < from)
    && (forall i :: n <= i < |run| ==> from <= run[i].now)
  }

  // ---- The bound ------------------------------------------------------------------

  /** What holds after `m` attempts: the window known at the start goes on, or others have taken its place. */
  ghost predicate InStep(ws0: Windows, ws: Windows, key: string, from: int, width: nat, g: nat) {
    && g <= Most(ws0, key, from, width)
    && if key in ws && ws[key].startedAt >= from then
         && ws[key].startedAt - from >= Delay(ws0, key, from)
         && g <= Left(ws0, key, from) + Renewed(ws[key].startedAt - from - Delay(ws0, key, from)) - 10
                 + Capped(ws[key].count)
       else if Live(ws0, key, from) then
         && key in ws && ws[key].startedAt == ws0[key].startedAt && ws[key].count >= ws0[key].count
         && g <= Capped(ws[key].count) - Capped(ws0[key].count)
       else g == 0 && (key in ws ==> Expired(ws[key], from))
  }

  lemma RenewedGrows(x: int, y: int)
    requires 0 <= x <= y
    ensures 10 <= Renewed(x) <= Renewed(y)
    ensures Renewed(x + 60_001) == Renewed(x) + 10
  {
    assert x / 60_001 <= y / 60_001;
  }

  /** Another attempt in the window the client has. */
  lemma SameWindow(ws0: Windows, ws: Windows, now: int, key: string, from: int, width: nat, g: nat)
    requires InStep(ws0, ws, key, from, width, g) && from <= now
    requires key in ws && ws[key].startedAt <= now && !Expired(ws[key], now)
    ensures InStep(ws0, Counted(ws, now, key), key, from, width,
                   g + if now <= from + width && Allowed(ws, now, key) then 1 else 0)
  {
    hide Renewed, Delay, Left;
    var x, delay := ws[key].startedAt - from, Delay(ws0, key, from);
    if 0 <= x <= width {
      RenewedGrows(x - delay, width - delay);
    }
    SomeLeft(ws0, key, from);
  }

  lemma SomeLeft(ws0: Windows, key: string, from: int)
    ensures Live(ws0, key, from) ==> Left(ws0, key, from) == 10 - Capped(ws0[key].count)
  {
  }

  /** The attempt that begins another window. */
  lemma NextWindow(ws0: Windows, ws: Windows, now: int, key: string, from: int, width: nat, g: nat)
    requires InStep(ws0, ws, key, from, width, g) && from <= now
    requires key in ws ==> ws[key].startedAt <= now && Expired(ws[key], now)
    ensures InStep(ws0, Counted(ws, now, key), key, from, width,
                   g + if now <= from + width && Allowed(ws, now, key) then 1 else 0)
  {
    hide Renewed, Left;
    var x, delay := now - from, Delay(ws0, key, from);
    assert x >= delay;
    if key in ws && from <= ws[key].startedAt {
      var before := ws[key].startedAt - from;
      RenewedGrows(before - delay, before - delay);
      RenewedGrows(before + 60_001 - delay, x - delay);
    } else {
      RenewedGrows(0, x - delay);
      SomeLeft(ws0, key, from);
    }
    if x <= width {
      RenewedGrows(x - delay, width - delay);
    }
  }

  lemma StepByAttempt(ws0: Windows, ws: Windows, a: Attempt, key: string, from: int, width: nat, g: nat)
    requires InStep(ws0, ws, key, from, width, g) && from <= a.now
    requires key in ws ==> ws[key].startedAt <= a.now
    ensures InStep(ws0, Counted(ws, a.now, a.key), key, from, width,
                   g + if a.key == key && a.now <= from + width && Allowed(ws, a.now, key) then 1 else 0)
  {
    if a.key == key {
      hide InStep, Counted, Allowed;
      if key in ws && !Expired(ws[key], a.now) {
        SameWindow(ws0, ws, a.now, key, from, width, g);
      } else {
        NextWindow(ws0, ws, a.now, key, from, width, g);
      }
    } else {
      hide Most, Renewed, Left, Delay, Live;
    }
  }

  lemma {:induction false} AllInStep(run: seq<Attempt>, n: nat, key: string, from: int, width: nat, m: nat)
    requires Splits(run, n, from) && n <= m <= |run|
    ensures InStep(After(run, n, false), After(run, m, false), key, from, width,
                   Grants(run, key, from, from + width, m, false))
  {
    hide Ordered, InStep;
    if m == n {
      Opening(run, n, key, from, width);
    } else {
      AllInStep(run, n, key, from, width, m - 1);
      var a := run[m - 1];
      WindowCounts(run, key, n);
      WindowCounts(run, key, m - 1);
      WindowsAreOld(run, n, key, from, m);
      StepByAttempt(After(run, n, false), After(run, m - 1, false), a, key, from, width,
                    Grants(run, key, from, from + width, m - 1, false));
    }
  }

  lemma WindowsAreOld(run: seq<Attempt>, n: nat, key: string, from: int, m: nat)
    requires Splits(run, n, from) && n < m <= |run|
    ensures key in After(run, n, false) ==> After(run, n, false)[key].startedAt < from
    ensures key in After(run, m - 1, false) ==> After(run, m - 1, false)[key].startedAt <= run[m - 1].now
  {
    hide After;
    WindowCounts(run, key, n);
    WindowCounts(run, key, m - 1);
  }

  lemma Opening(run: seq<Attempt>, n: nat, key: string, from: int, width: nat)
    requires Splits(run, n, from)
    ensures InStep(After(run, n, false), After(run, n, false), key, from, width,
                   Grants(run, key, from, from + width, n, false))
  {
    hide After;
    WindowCounts(run, key, n);
    NoGrantsYet(run, key, from, from + width, n);
  }

  lemma {:induction false} NoGrantsYet(run: seq<Attempt>, key: string, from: int, to: int, n: nat)
    requires n <= |run| && forall i :: 0 <= i < n ==> run[i].now < from
    ensures Grants(run, key, from, to, n, false) == 0
  {
    if n > 0 {
      NoGrantsYet(run, key, from, to, n - 1);
    }
  }

  /** A client is never granted more than its window allows for. */
  lemma BoundByState(run: seq<Attempt>, n: nat, key: string, from: int, width: nat)
    requires Splits(run, n, from)
    ensures Grants(run, key, from, from + width, |run|, true) <= Most(After(run, n, true), key, from, width)
  {
    hide Most;
    SameGrants(run, key, from, from + width, |run|);
    AllInStep(run, n, key, from, width, |run|);
    PurgedState(run, n, key, from, width);
  }

  /** Purging takes away only windows that no longer matter. */
  lemma PurgedState(run: seq<Attempt>, n: nat, key: string, from: int, width: nat)
    requires Splits(run, n, from)
    ensures Most(After(run, n, true), key, from, width) == Most(After(run, n, false), key, from, width)
    ensures Live(After(run, n, true), key, from) <==> Live(After(run, n, false), key, from)
    ensures Live(After(run, n, true), key, from) ==> After(run, n, true)[key] == After(run, n, false)[key]
  {
    hide After, Renewed;
    PurgedKeepsLive(run, n, from);
  }

  // ---- It is reached ----------------------------------------------------------------

  /** Uses up the live window at once, and then every later one as soon as it can begin. */
  function Rush(ws: Windows, key: string, from: int, width: nat): seq<Attempt> {
    var delay := Delay(ws, key, from);
    Burst(from, key, Left(ws, key, from)) + Train(from + delay, key, Trains(width - delay))
  }

  function Trains(room: int): nat {
    if room < 0 then 0 else room / 60_001 + 1
  }

  lemma Joined(run: seq<Attempt>, more: seq<Attempt>, from: int)
    requires Ordered(run) && Ordered(more)
    requires (forall i :: 0 <= i < |run| ==> run[i].now < from) && forall i :: 0 <= i < |more| ==> from <= more[i].now
    ensures Splits(run + more, |run|, from)
  {
  }

  lemma RushIsOrdered(ws: Windows, key: string, from: int, width: nat)
    requires Live(ws, key, from) ==> ws[key].startedAt < from
    ensures Ordered(Rush(ws, key, from, width))
    ensures forall i :: 0 <= i < |Rush(ws, key, from, width)| ==> from <= Rush(ws, key, from, width)[i].now
  {
    hide Train, Burst, Left, Trains;
  }

  /** Once the live window is used up, the next one begins as soon as it has run out. */
  lemma SpendTheRest(run: seq<Attempt>, key: string, from: int, width: nat)
    requires Ordered(run) && forall i :: 0 <= i < |run| ==> run[i].now < from
    ensures var full, to := After(run, |run|, false), from + width;
      var left, next := Left(full, key, from), from + Delay(full, key, from);
      var burst := run + Burst(from, key, left);
      && from <= next <= from + 60_000
      && Last(burst, next, key) == WindowView(next, 0)
      && Grants(burst, key, from, to, |burst|, false) == left
  {
    hide After, Grants, Ordered, Burst;
    var full, to := After(run, |run|, false), from + width;
    WindowCounts(run, key, |run|);
    OldEnough(run, from);
    NoGrantsYet(run, key, from, to, |run|);
    var left := Left(full, key, from);
    if left == 0 {
      assert run + Burst(from, key, 0) == run;
    } else {
      AddBurst(run, from, left, key, from, to);
    }
  }

  lemma OldEnough(run: seq<Attempt>, from: int)
    requires forall i :: 0 <= i < |run| ==> run[i].now < from
    ensures |run| > 0 ==> run[|run| - 1].now < from
  {
  }

  lemma TrainsFit(room: int)
    ensures 60_001 * (Trains(room) - 1) <= (if room < 0 then -60_001 else room)
    ensures Renewed(room) == 10 * Trains(room)
  {
  }

  /** Whatever has happened before `from`, the client can go on so as to get all of it. */
  lemma StateIsExhausted(run: seq<Attempt>, key: string, from: int, width: nat)
    requires Ordered(run) && forall i :: 0 <= i < |run| ==> run[i].now < from
    ensures var ws := After(run, |run|, true);
      var longer := run + Rush(ws, key, from, width);
      && Splits(longer, |run|, from)
      && Grants(longer, key, from, from + width, |longer|, true) == Most(ws, key, from, width)
  {
    hide After, Grants, Splits, Rush, Most;
    var ws, full := After(run, |run|, true), After(run, |run|, false);
    var rush := Rush(ws, key, from, width);
    Joined(run, [], from);
    assert run + [] == run;
    WindowIsOlder(run, key, from);
    PurgedState(run, |run|, key, from, width);
    SameRush(ws, full, key, from, width);
    RushIsOrdered(ws, key, from, width);
    Joined(run, rush, from);
    RushGrants(run, key, from, width);
    SplitsOrdered(run + rush, |run|, from);
    SameGrants(run + rush, key, from, from + width, |run + rush|);
  }

  lemma SameRush(ws: Windows, full: Windows, key: string, from: int, width: nat)
    requires Live(ws, key, from) <==> Live(full, key, from)
    requires Live(ws, key, from) ==> ws[key] == full[key]
    ensures Rush(ws, key, from, width) == Rush(full, key, from, width)
  {
  }

  lemma RushGrants(run: seq<Attempt>, key: string, from: int, width: nat)
    requires Ordered(run) && forall i :: 0 <= i < |run| ==> run[i].now < from
    ensures var full := After(run, |run|, false);
      var longer := run + Rush(full, key, from, width);
      Grants(longer, key, from, from + width, |longer|, false) == Most(full, key, from, width)
  {
    hide After, Grants, Burst, Train, Renewed, Trains, Ordered, Left, Delay;
    var full, to := After(run, |run|, false), from + width;
    var left, delay := Left(full, key, from), Delay(full, key, from);
    var burst, trains := run + Burst(from, key, left), Trains(width - delay);
    SpendTheRest(run, key, from, width);
    TrainsFit(width - delay);
    AddTrain(burst, from + delay, trains, key, from, to);
    assert run + Rush(full, key, from, width) == burst + Train(from + delay, key, trains);
  }

  lemma SplitsOrdered(run: seq<Attempt>, n: nat, from: int)
    requires Splits(run, n, from)
    ensures Ordered(run)
  {
  }

  // ---- Ten a minute ------------------------------------------------------------------

  /** A window begun earlier is still counting and has attempts left. */
  predicate HasSomeLeft(ws: Windows, key: string, from: int) {
    Live(ws, key, from) && ws[key].count < 10
  }

  lemma MinuteOf(ws: Windows, key: string, from: int)
    requires Live(ws, key, from) ==> ws[key].startedAt < from
    ensures Most(ws, key, from, 60_000) == if HasSomeLeft(ws, key, from) then 20 - ws[key].count else 10
  {
  }

  lemma ContinuedBound(run: seq<Attempt>, more: seq<Attempt>, key: string, from: int, width: nat)
    requires Splits(run, |run|, from) && Splits(run + more, |run|, from)
    ensures Grants(run + more, key, from, from + width, |run + more|, true)
            <= Most(After(run, |run|, true), key, from, width)
  {
    hide After, Grants, Splits, Most;
    BoundByState(run + more, |run|, key, from, width);
    SamePrefix(run, more, key, from, from + width, |run|);
    PurgedState(run, |run|, key, from, width);
    PurgedState(run + more, |run|, key, from, width);
  }

  /**
   * However the attempts go on, a client gets at most ten of them granted in the minute from `from` on, if and only if
   * it has no window at that time with attempts left; if it has one, there is a way to get what is left and ten more.
   */
  lemma TenAMinute(run: seq<Attempt>, key: string, from: int)
    requires Ordered(run) && forall i :: 0 <= i < |run| ==> run[i].now < from
    ensures var ws := After(run, |run|, true);
      && (HasSomeLeft(ws, key, from) ==>
            exists more :: Splits(run + more, |run|, from)
                           && Grants(run + more, key, from, from + 60_000, |run + more|, true) == 20 - ws[key].count)
      && ((forall more :: Splits(run + more, |run|, from) ==>
            Grants(run + more, key, from, from + 60_000, |run + more|, true) <= 10)
          <==> !HasSomeLeft(ws, key, from))
  {
    hide After, Grants, Splits, Most, Rush;
    var ws := After(run, |run|, true);
    Joined(run, [], from);
    assert run + [] == run;
    WindowIsOlder(run, key, from);
    MinuteOf(ws, key, from);
    StateIsExhausted(run, key, from, 60_000);
    var rush := Rush(ws, key, from, 60_000);
    assert Splits(run + rush, |run|, from);
    forall more | Splits(run + more, |run|, from)
      ensures Grants(run + more, key, from, from + 60_000, |run + more|, true) <= Most(ws, key, from, 60_000)
    {
      ContinuedBound(run, more, key, from, 60_000);
    }
  }

  lemma WindowIsOlder(run: seq<Attempt>, key: string, from: int)
    requires Splits(run, |run|, from)
    ensures var ws := After(run, |run|, true); Live(ws, key, from) ==> 0 < ws[key].count && ws[key].startedAt < from
  {
    hide After;
    WindowCounts(run, key, |run|);
    PurgedState(run, |run|, key, from, 0);
  }
}
