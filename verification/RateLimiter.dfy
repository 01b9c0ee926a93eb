/** Fixed windows of login attempts per client, what they allow over any stretch of time, and their purging. */
module RateLimiter {

  const MAX_ATTEMPTS_PER_WINDOW := 10
  const WINDOW_MS := 60_000
  const MAX_TRACKED_CLIENTS := 10_000

  datatype WindowView = WindowView(startedAt: int, count: nat)

  type Windows = map<string, WindowView>

  predicate Expired(w: WindowView, now: int) {
    now - w.startedAt > WINDOW_MS
  }

  function Purge(ws: Windows, now: int): Windows {
    map k | k in ws && !Expired(ws[k], now) :: ws[k]
  }

  function Tidied(ws: Windows, now: int, purging: bool): Windows {
    if purging && |ws| > MAX_TRACKED_CLIENTS then Purge(ws, now) else ws
  }

  /** The window an attempt falls into, before it is counted. */
  function Current(ws: Windows, now: int, key: string): WindowView {
    if key in ws && !Expired(ws[key], now) then ws[key] else WindowView(now, 0)
  }

  function Counted(ws: Windows, now: int, key: string): Windows {
    var w := Current(ws, now, key);
    ws[key := w.(count := w.count + 1)]
  }

  predicate Allowed(ws: Windows, now: int, key: string) {
    Current(ws, now, key).count + 1 <= MAX_ATTEMPTS_PER_WINDOW
  }

  // ---- The limiter as an object ----------------------------------------------

  class Window {
    const startedAt: int
    var count: nat
    ghost const owner: string

    constructor (startedAt: int, ghost owner: string)
      ensures this.startedAt == startedAt && count == 0 && this.owner == owner
    {
      this.startedAt, count, this.owner := startedAt, 0, owner;
    }
  }

  class LoginRateLimiter {
    var windows: map<string, Window>

    constructor ()
      ensures Valid() && View() == map[]
    {
      windows := map[];
    }

    /** No two clients share a window. */
    ghost predicate Valid()
      reads this
    {
      forall k :: k in windows ==> windows[k].owner == k
    }

    ghost function View(): Windows
      reads this, windows.Values
    {
      map k | k in windows :: WindowView(windows[k].startedAt, windows[k].count)
    }

    method RemoveExpired(now: int)
      requires Valid()
      modifies this
      ensures Valid() && windows.Values <= old(windows.Values)
      ensures View() == Purge(old(View()), now)
    {
      windows := map k | k in windows && !(now - windows[k].startedAt > WINDOW_MS) :: windows[k];
    }

    /** Finds the client's window, or opens a new one. */
    method FindWindow(now: int, clientKey: string) returns (window: Window)
      requires Valid()
      modifies this
      ensures Valid() && windows.Values <= old(windows.Values) + {window}
      ensures window in old(windows.Values) || fresh(window)
      ensures clientKey in windows && windows[clientKey] == window
      ensures View() == old(View())[clientKey := Current(old(View()), now, clientKey)]
    {
      if clientKey !in windows || now - windows[clientKey].startedAt > WINDOW_MS {
        window := new Window(now, clientKey);
      } else {
        window := windows[clientKey];
      }
      windows := windows[clientKey := window];
    }

    /** Counts the attempt in the client's window. */
    method CountAttempt(now: int, clientKey: string) returns (count: nat)
      requires Valid()
      modifies this, windows.Values
      ensures Valid() && fresh(windows.Values - old(windows.Values))
      ensures View() == Counted(old(View()), now, clientKey)
      ensures count == Current(old(View()), now, clientKey).count + 1
    {
      hide Current;
      var window := FindWindow(now, clientKey);
      assert View()[clientKey] == Current(old(View()), now, clientKey);
      Increment(clientKey);
      count := window.count;
    }

    method Increment(clientKey: string)
      requires Valid() && clientKey in windows
      modifies windows[clientKey]
      ensures windows[clientKey].count == old(windows[clientKey].count) + 1
      ensures View() == old(View())[clientKey := old(View())[clientKey].(count := old(View())[clientKey].count + 1)]
    {
      windows[clientKey].count := windows[clientKey].count + 1;
    }

    method TryAcquire(now: int, clientKey: string) returns (granted: bool)
      requires Valid()
      modifies this, windows.Values
      ensures Valid() && fresh(windows.Values - old(windows.Values))
      ensures var before := Tidied(old(View()), now, true);
        View() == Counted(before, now, clientKey) && granted == Allowed(before, now, clientKey)
    {
      hide Counted, Purge, Current;
      SameSize(windows, View());
      if |windows| > MAX_TRACKED_CLIENTS {
        RemoveExpired(now);
      }
      var count := CountAttempt(now, clientKey);
      granted := count <= MAX_ATTEMPTS_PER_WINDOW;
    }
  }

  lemma SameSize<T>(m: map<string, T>, v: Windows)
    requires m.Keys == v.Keys
    ensures |m| == |v|
  {
    assert |m| == |m.Keys| && |v| == |v.Keys|;
  }

  // ---- Runs ---------------------------------------------------------------------

  datatype Attempt = Attempt(now: int, key: string)

  /** A run in which the clock never goes back. */
  ghost predicate Ordered(run: seq<Attempt>) {
    forall i, j :: 0 <= i < j < |run| ==> run[i].now <= run[j].now
  }

  /** The windows after the first `n` attempts, with or without purging. */
  function After(run: seq<Attempt>, n: nat, purging: bool): Windows
    requires n <= |run|
  {
    if n == 0 then map[]
    else
      var a := run[n - 1];
      Counted(Tidied(After(run, n - 1, purging), a.now, purging), a.now, a.key)
  }

  predicate Granted(run: seq<Attempt>, i: nat, purging: bool)
    requires i < |run|
  {
    Allowed(Tidied(After(run, i, purging), run[i].now, purging), run[i].now, run[i].key)
  }

  // ---- Purging is invisible -------------------------------------------------------

  /** `ws` holds every window of `full` still alive at `now`, and nothing that `full` does not hold. */
  ghost predicate KeepsLive(ws: Windows, full: Windows, now: int) {
    && (forall k :: k in ws ==> k in full && full[k] == ws[k])
    && (forall k :: k in full && k !in ws ==> Expired(full[k], now))
  }

  lemma {:induction false} PurgedKeepsLive(run: seq<Attempt>, n: nat, now: int)
    requires Ordered(run) && n <= |run| && (n > 0 ==> run[n - 1].now <= now)
    ensures KeepsLive(After(run, n, true), After(run, n, false), now)
  {
    if n > 0 {
      var a := run[n - 1];
      PurgedKeepsLive(run, n - 1, a.now);
      var ws, full := After(run, n - 1, true), After(run, n - 1, false);
      assert KeepsLive(Tidied(ws, a.now, true), full, a.now);
      assert Current(Tidied(ws, a.now, true), a.now, a.key) == Current(full, a.now, a.key);
    }
  }

  /** For any number of clients, a limiter that purges gives every attempt the answer of one that never does. */
  lemma PurgingIsInvisible(run: seq<Attempt>, i: nat)
    requires Ordered(run) && i < |run|
    ensures Granted(run, i, true) == Granted(run, i, false)
  {
    PurgedKeepsLive(run, i, run[i].now);
    var ws, full := After(run, i, true), After(run, i, false);
    assert KeepsLive(Tidied(ws, run[i].now, true), full, run[i].now);
  }

  /**
   * What is tracked after an attempt: the client's own window; besides, everybody's if no more than 10,000 clients were
   * tracked, and otherwise only those that are still alive.
   */
  lemma TrackedAfter(run: seq<Attempt>, n: nat, k: string)
    requires 0 < n <= |run|
    ensures var before, ws, a := After(run, n - 1, true), After(run, n, true), run[n - 1];
      if k == a.key then k in ws
      else
        && (k in ws <==> k in before && (|before| <= 10_000 || a.now <= before[k].startedAt + 60_000))
        && (k in ws ==> ws[k] == before[k])
  {
  }

  // ---- What a window allows ---------------------------------------------------------

  /** Attempts of `key` among the first `n` at time `from` or later. */
  function AttemptsFrom(run: seq<Attempt>, key: string, from: int, n: nat): nat
    requires n <= |run|
  {
    if n == 0 then 0
    else AttemptsFrom(run, key, from, n - 1) + if run[n - 1].key == key && run[n - 1].now >= from then 1 else 0
  }

  lemma {:induction false} NoneYet(run: seq<Attempt>, key: string, from: int, n: nat)
    requires n <= |run| && forall i :: 0 <= i < n && run[i].key == key ==> run[i].now < from
    ensures AttemptsFrom(run, key, from, n) == 0
  {
    if n > 0 {
      NoneYet(run, key, from, n - 1);
    }
  }

  /** A window counts exactly the client's attempts since it began, all within its length. */
  lemma {:induction false} WindowCounts(run: seq<Attempt>, key: string, n: nat)
    requires Ordered(run) && n <= |run|
    ensures var ws := After(run, n, false);
      && (key !in ws ==> forall i :: 0 <= i < n ==> run[i].key != key)
      && (key in ws ==>
            && ws[key].count == AttemptsFrom(run, key, ws[key].startedAt, n) >= 1
            && n > 0 && ws[key].startedAt <= run[n - 1].now
            && forall i :: 0 <= i < n && run[i].key == key ==> run[i].now <= ws[key].startedAt + WINDOW_MS)
  {
    if n > 0 {
      WindowCounts(run, key, n - 1);
      var a := run[n - 1];
      var ws := After(run, n - 1, false);
      if a.key == key && (key !in ws || Expired(ws[key], a.now)) {
        NoneYet(run, key, a.now, n - 1);
      }
    }
  }

  /** An attempt is granted exactly when fewer than ten were made in its window before it. */
  lemma FirstTenAreGranted(run: seq<Attempt>, i: nat)
    requires Ordered(run) && i < |run|
    ensures var start := Current(After(run, i, false), run[i].now, run[i].key).startedAt;
      Granted(run, i, true) <==> AttemptsFrom(run, run[i].key, start, i) < MAX_ATTEMPTS_PER_WINDOW
  {
    PurgingIsInvisible(run, i);
    WindowCounts(run, run[i].key, i);
    var ws := After(run, i, false);
    if run[i].key !in ws || Expired(ws[run[i].key], run[i].now) {
      NoneYet(run, run[i].key, run[i].now, i);
    }
  }

  // ---- What any stretch of time allows --------------------------------------------------

  /** Grants to `key` among the first `n` attempts, between `from` and `to`. */
  function Grants(run: seq<Attempt>, key: string, from: int, to: int, n: nat, purging: bool): nat
    requires n <= |run|
  {
    if n == 0 then 0
    else
      Grants(run, key, from, to, n - 1, purging) +
      if run[n - 1].key == key && from <= run[n - 1].now <= to && Granted(run, n - 1, purging) then 1 else 0
  }

  /** At most what earlier windows can contribute when a window begins `x` ms into the stretch. */
  function Earlier(x: nat): nat {
    10 * (x / 60_001) + if x % 60_001 == 0 then 0 else 9
  }

  /** The most that any stretch of `width` ms can see. */
  function MaxGrants(width: nat): nat {
    10 + Earlier(width)
  }

  lemma EarlierGrows(x: nat, y: nat)
    requires x <= y
    ensures Earlier(x) <= Earlier(y)
    ensures Earlier(x + 60_001) == Earlier(x) + 10
    ensures x > 0 ==> Earlier(x) >= 9
  {
    if x / 60_001 == y / 60_001 {
      assert x % 60_001 <= y % 60_001;
    } else {
      assert x / 60_001 + 1 <= y / 60_001;
    }
  }

  function Capped(count: nat): nat {
    if count < 10 then count else 10
  }

  lemma {:induction false} GrantsBound(run: seq<Attempt>, key: string, from: int, width: nat, n: nat)
    requires Ordered(run) && n <= |run|
    ensures var ws, g := After(run, n, false), Grants(run, key, from, from + width, n, false);
      && g <= MaxGrants(width)
      && (n > 0 && run[n - 1].now < from ==> g == 0)
      && (key !in ws ==> g == 0)
      && (key in ws && ws[key].startedAt < from ==>
            g + 1 <= Capped(ws[key].count) && (g > 0 ==> from <= ws[key].startedAt + WINDOW_MS))
      && (key in ws && ws[key].startedAt >= from ==> g <= Capped(ws[key].count) + Earlier(ws[key].startedAt - from))
  {
    hide Earlier;
    if n > 0 {
      GrantsBound(run, key, from, width, n - 1);
      WindowCounts(run, key, n - 1);
      var a, ws := run[n - 1], After(run, n - 1, false);
      if a.key == key {
        var start := Current(ws, a.now, key).startedAt;
        if key in ws && from <= ws[key].startedAt < start {
          EarlierGrows(ws[key].startedAt - from + 60_001, start - from);
          EarlierGrows(ws[key].startedAt - from, start - from);
        } else if from < start {
          EarlierGrows(start - from, start - from);
        }
        if from <= start <= from + width {
          EarlierGrows(start - from, width);
        }
      }
    }
  }

  /** The limit over every run: 19 grants in any 60,000 ms, and never more than ten per window begun. */
  lemma RateBound(run: seq<Attempt>, key: string, from: int, width: nat)
    requires Ordered(run)
    ensures Grants(run, key, from, from + width, |run|, true) <= MaxGrants(width)
    ensures width == 60_000 ==> Grants(run, key, from, from + width, |run|, true) <= 19
    ensures Grants(run, key, from, from + width, |run|, true) * 60_000 <= 10 * (2 * 60_000 + width)
  {
    SameGrants(run, key, from, from + width, |run|);
    GrantsBound(run, key, from, width, |run|);
    assert (width / 60_001) * 60_001 <= width;
  }

  lemma {:induction false} SameGrants(run: seq<Attempt>, key: string, from: int, to: int, n: nat)
    requires Ordered(run) && n <= |run|
    ensures Grants(run, key, from, to, n, true) == Grants(run, key, from, to, n, false)
  {
    hide Granted;
    if n > 0 {
      SameGrants(run, key, from, to, n - 1);
      PurgingIsInvisible(run, n - 1);
    }
  }

  // ---- The bound is reached -----------------------------------------------------------

  function Burst(now: int, key: string, n: nat): (b: seq<Attempt>)
    ensures |b| == n && forall i :: 0 <= i < n ==> b[i] == Attempt(now, key)
  {
    seq(n, i => Attempt(now, key))
  }

  /** `m` full windows, each begun as soon as the one before has run out. */
  function Train(start: int, key: string, m: nat): (t: seq<Attempt>)
    ensures forall i :: 0 <= i < |t| ==>
              t[i].key == key && start <= t[i].now <= start + 60_001 * (if m == 0 then 0 else m - 1)
    ensures Ordered(t)
  {
    if m == 0 then [] else Train(start, key, m - 1) + Burst(start + 60_001 * (m - 1), key, 10)
  }

  /** A run of one client in which some stretch of `width` ms sees as many grants as it possibly can. */
  function Worst(from: int, width: nat, key: string): seq<Attempt> {
    if width % 60_001 == 0 then Train(from, key, width / 60_001 + 1)
    else [Attempt(from - WINDOW_MS, key)] + Burst(from, key, 9) + Train(from + 1, key, width / 60_001 + 1)
  }

  lemma {:induction false} SamePrefix(run: seq<Attempt>, more: seq<Attempt>, key: string, from: int, to: int, n: nat)
    requires n <= |run|
    ensures After(run + more, n, false) == After(run, n, false)
    ensures Grants(run + more, key, from, to, n, false) == Grants(run, key, from, to, n, false)
  {
    if n > 0 {
      SamePrefix(run, more, key, from, to, n - 1);
      assert (run + more)[n - 1] == run[n - 1];
    }
  }

  /** What the client's window holds at the end of the run, seen at `now`. */
  function Last(run: seq<Attempt>, now: int, key: string): WindowView {
    Current(After(run, |run|, false), now, key)
  }

  lemma {:induction false} AddBurst(run: seq<Attempt>, now: int, n: nat, key: string, from: int, to: int)
    requires from <= now <= to && Last(run, now, key).count + n <= 10
    ensures var longer := run + Burst(now, key, n);
      && Last(longer, now, key) == WindowView(Last(run, now, key).startedAt, Last(run, now, key).count + n)
      && Grants(longer, key, from, to, |longer|, false) == Grants(run, key, from, to, |run|, false) + n
  {
    var longer := run + Burst(now, key, n);
    if n == 0 {
      assert longer == run;
    } else {
      AddBurst(run, now, n - 1, key, from, to);
      var shorter := run + Burst(now, key, n - 1);
      assert longer == shorter + [Attempt(now, key)];
      SamePrefix(shorter, [Attempt(now, key)], key, from, to, |shorter|);
    }
  }

  lemma {:induction false} AddTrain(run: seq<Attempt>, start: int, m: nat, key: string, from: int, to: int)
    requires from <= start && start + 60_001 * (m - 1) <= to && Last(run, start, key) == WindowView(start, 0)
    ensures var longer := run + Train(start, key, m);
      && Last(longer, start + 60_001 * m, key) == WindowView(start + 60_001 * m, 0)
      && Grants(longer, key, from, to, |longer|, false) == Grants(run, key, from, to, |run|, false) + 10 * m
  {
    hide After, Grants, Burst;
    var longer := run + Train(start, key, m);
    if m == 0 {
      assert longer == run;
    } else {
      AddTrain(run, start, m - 1, key, from, to);
      var shorter := run + Train(start, key, m - 1);
      var now := start + 60_001 * (m - 1);
      assert longer == shorter + Burst(now, key, 10);
      AddBurst(shorter, now, 10, key, from, to);
    }
  }

  lemma WorstIsOrdered(from: int, width: nat, key: string)
    ensures Ordered(Worst(from, width, key))
  {
    hide Train;
  }

  lemma EvenWidth(from: int, width: nat, key: string)
    requires width % 60_001 == 0
    ensures var run := Worst(from, width, key);
      Grants(run, key, from, from + width, |run|, false) == MaxGrants(width)
  {
    var run, m := Worst(from, width, key), width / 60_001 + 1;
    hide Train;
    AddTrain([], from, m, key, from, from + width);
    assert [] + Train(from, key, m) == run;
  }

  lemma OddWidth(from: int, width: nat, key: string)
    requires width % 60_001 != 0
    ensures var run := Worst(from, width, key);
      Grants(run, key, from, from + width, |run|, false) == MaxGrants(width)
  {
    var run, m, to := Worst(from, width, key), width / 60_001 + 1, from + width;
    hide Train, After, Grants;
    var opening := [Attempt(from - WINDOW_MS, key)];
    OneBefore(from, key, to);
    AddBurst(opening, from, 9, key, from, to);
    AddTrain(opening + Burst(from, key, 9), from + 1, m, key, from, to);
  }

  /** For every width there is a run that sees exactly as many grants: the bound cannot be lowered. */
  lemma BoundIsReached(from: int, width: nat, key: string)
    ensures var run := Worst(from, width, key);
      Ordered(run) && Grants(run, key, from, from + width, |run|, true) == MaxGrants(width)
  {
    hide Worst, Grants, MaxGrants;
    var run := Worst(from, width, key);
    WorstIsOrdered(from, width, key);
    SameGrants(run, key, from, from + width, |run|);
    if width % 60_001 == 0 {
      EvenWidth(from, width, key);
    } else {
      OddWidth(from, width, key);
    }
  }

  /** One attempt just before the stretch opens a window that is still alive at its start. */
  lemma OneBefore(from: int, key: string, to: int)
    ensures var opening := [Attempt(from - WINDOW_MS, key)];
      && Last(opening, from, key) == WindowView(from - WINDOW_MS, 1)
      && Grants(opening, key, from, to, 1, false) == 0
  {
    var opening := [Attempt(from - WINDOW_MS, key)];
    assert After(opening, 0, false) == map[];
    assert Grants(opening, key, from, to, 0, false) == 0;
  }
}
