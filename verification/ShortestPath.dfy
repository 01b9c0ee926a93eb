/**
 * Dijkstra's search with lazy deletion: a node may have several queue entries, each with its distance at
 * insertion, and entries of settled nodes are skipped when polled.
 */
module ShortestPath {
  import opened Extended
  import opened Network

  /** Starting a journey at `node`, having spent `minutes` on the walk and the wait. */
  datatype Boarding = Boarding(node: nat, minutes: real)

  /** How a node was last reached: not at all, from the origin, or over an edge from another node. */
  datatype Arrival = Unreached | Boarded(minutes: real) | Hopped(minutes: real, viaNode: nat, viaEdge: Edge)

  datatype Entry = Entry(node: nat, minutes: real)

  // ---- Trips: what the search is about ------------------------------------------

  datatype Trip = Board(start: Boarding) | Hop(prev: Trip, edge: Edge)

  function End(t: Trip): nat {
    match t
    case Board(b) => b.node
    case Hop(_, e) => e.to
  }

  function Cost(t: Trip): real {
    match t
    case Board(b) => b.minutes
    case Hop(p, e) => Cost(p) + e.minutes
  }

  predicate IsTrip(adj: seq<seq<Edge>>, bs: seq<Boarding>, t: Trip) {
    match t
    case Board(b) => b in bs
    case Hop(p, e) => IsTrip(adj, bs, p) && End(p) < |adj| && e in adj[End(p)]
  }

  /** All costs are at least zero and all node numbers in range. */
  ghost predicate WellFormed(adj: seq<seq<Edge>>, bs: seq<Boarding>) {
    && (forall b :: b in bs ==> b.node < |adj| && b.minutes >= 0.0)
    && (forall u, e :: 0 <= u < |adj| && e in adj[u] ==> e.to < |adj| && e.minutes >= 0.0)
  }

  // ---- What the search establishes ------------------------------------------------

  /** `dist` is a lower bound for every trip ... */
  ghost predicate Bounds(adj: seq<seq<Edge>>, bs: seq<Boarding>, dist: seq<Quantity>) {
    forall t :: IsTrip(adj, bs, t) ==> End(t) < |dist| && AtMost(dist[End(t)], Cost(t))
  }

  /** ... and the recorded arrival of `v` spells out a trip that costs just that. */
  ghost predicate Recorded(adj: seq<seq<Edge>>, bs: seq<Boarding>, dist: seq<Quantity>, arr: seq<Arrival>,
                           trips: seq<Trip>, v: int)
    requires 0 <= v < |dist| == |arr| == |trips|
  {
    match arr[v]
    case Unreached => dist[v] == Infinity
    case Boarded(m) =>
      && dist[v] == Finite(m)
      && trips[v].Board? && trips[v].start in bs && trips[v].start == Boarding(v, m)
    case Hopped(m, u, e) =>
      && dist[v] == Finite(m)
      && u < |adj| == |dist| && e in adj[u] && e.to == v
      && dist[u].Finite? && m == dist[u].value + e.minutes
      && trips[v] == Hop(trips[u], e)
  }

  ghost predicate IsForest(adj: seq<seq<Edge>>, bs: seq<Boarding>, dist: seq<Quantity>, arr: seq<Arrival>,
                           trips: seq<Trip>)
  {
    && |dist| == |arr| == |trips| == |adj|
    && forall v :: 0 <= v < |dist| ==> Recorded(adj, bs, dist, arr, trips, v)
  }

  // ---- The invariant of the search -----------------------------------------------

  /** Links are recorded from settled nodes only, whose own trips no longer change. */
  ghost predicate FromSettled(arr: seq<Arrival>, settled: seq<bool>) {
    && |arr| == |settled|
    && forall v :: 0 <= v < |arr| && arr[v].Hopped? ==> arr[v].viaNode < |settled| && settled[arr[v].viaNode]
  }

  /** Stale entries do no harm: every reached unsettled node still has the entry equal to its distance. */
  ghost predicate Queued(dist: seq<Quantity>, settled: seq<bool>, queue: multiset<Entry>) {
    && |dist| == |settled|
    && (forall q :: q in queue ==> q.node < |dist| && AtMost(dist[q.node], q.minutes))
    && (forall v :: 0 <= v < |dist| && dist[v].Finite? && !settled[v] ==> Entry(v, dist[v].value) in queue)
  }

  /** Settled distances are final: at most `level`, and nothing below `level` is left in the queue. */
  ghost predicate Levelled(dist: seq<Quantity>, settled: seq<bool>, queue: multiset<Entry>, level: real) {
    && |dist| == |settled|
    && (forall v :: 0 <= v < |dist| && settled[v] ==> AtMost(dist[v], level))
    && (forall q :: q in queue ==> level <= q.minutes)
  }

  ghost predicate BoardingsCovered(bs: seq<Boarding>, n: nat, dist: seq<Quantity>)
    requires n <= |bs|
  {
    forall i :: 0 <= i < n ==> bs[i].node < |dist| && AtMost(dist[bs[i].node], bs[i].minutes)
  }

  /** The first `k` edges out of `u` offer no improvement. */
  ghost predicate Relaxed(adj: seq<seq<Edge>>, dist: seq<Quantity>, u: int, k: int)
    requires 0 <= u < |dist| == |adj| && 0 <= k <= |adj[u]|
  {
    && dist[u].Finite?
    && forall i :: 0 <= i < k ==>
         adj[u][i].to < |dist| && AtMost(dist[adj[u][i].to], dist[u].value + adj[u][i].minutes)
  }

  ghost predicate AllRelaxed(adj: seq<seq<Edge>>, dist: seq<Quantity>, settled: seq<bool>, except: int)
    requires |dist| == |adj| == |settled|
  {
    forall u :: 0 <= u < |dist| && settled[u] && u != except ==> Relaxed(adj, dist, u, |adj[u]|)
  }

  ghost predicate Invariant(adj: seq<seq<Edge>>, bs: seq<Boarding>, dist: seq<Quantity>, arr: seq<Arrival>,
                            trips: seq<Trip>, settled: seq<bool>, queue: multiset<Entry>, level: real)
  {
    && IsForest(adj, bs, dist, arr, trips)
    && FromSettled(arr, settled)
    && Queued(dist, settled, queue)
    && Levelled(dist, settled, queue, level)
    && BoardingsCovered(bs, |bs|, dist)
  }

  /** Sum of `w` over the settled ones among the first `n` nodes. */
  ghost function Tally(settled: seq<bool>, w: seq<nat>, n: nat): nat
    requires n <= |settled| == |w|
  {
    if n == 0 then 0 else Tally(settled, w, n - 1) + if settled[n - 1] then w[n - 1] else 0
  }

  lemma {:induction false} TallySettle(settled: seq<bool>, w: seq<nat>, n: nat, u: nat)
    requires n <= |settled| == |w| && u < |settled| && !settled[u]
    ensures Tally(settled[u := true], w, n) == Tally(settled, w, n) + if u < n then w[u] else 0
  {
    if n > 0 {
      TallySettle(settled, w, n - 1, u);
    }
  }

  lemma {:induction false} TallyAtMost(settled: seq<bool>, w: seq<nat>, n: nat)
    requires n <= |settled| == |w|
    ensures Tally(settled, w, n) <= Tally(seq(|w|, i => true), w, n)
  {
    if n > 0 {
      TallyAtMost(settled, w, n - 1);
    }
  }

  ghost function OutDegrees(adj: seq<seq<Edge>>): (w: seq<nat>)
    ensures |w| == |adj| && forall i :: 0 <= i < |w| ==> w[i] == |adj[i]|
  {
    seq(|adj|, i requires 0 <= i < |adj| => |adj[i]|)
  }

  ghost function EdgeCount(adj: seq<seq<Edge>>): nat {
    Tally(seq(|adj|, i => true), OutDegrees(adj), |adj|)
  }

  ghost function Ones(n: nat): (w: seq<nat>)
    ensures |w| == n && forall i :: 0 <= i < n ==> w[i] == 1
  {
    seq(n, i => 1)
  }

  // ---- Single steps, on values ------------------------------------------------------

  /** What holds while the boardings are being entered: no node settled, no link recorded. */
  ghost predicate Seeding(adj: seq<seq<Edge>>, bs: seq<Boarding>, n: nat, dist: seq<Quantity>, arr: seq<Arrival>,
                          trips: seq<Trip>, queue: multiset<Entry>)
    requires n <= |bs|
  {
    && IsForest(adj, bs, dist, arr, trips)
    && (forall v :: 0 <= v < |arr| ==> !arr[v].Hopped?)
    && Queued(dist, seq(|adj|, i => false), queue)
    && Levelled(dist, seq(|adj|, i => false), queue, 0.0)
    && BoardingsCovered(bs, n, dist)
  }

  lemma SeedKeeps(adj: seq<seq<Edge>>, bs: seq<Boarding>, n: nat, dist: seq<Quantity>, arr: seq<Arrival>,
                  trips: seq<Trip>, queue: multiset<Entry>)
    requires n < |bs| && WellFormed(adj, bs) && Seeding(adj, bs, n, dist, arr, trips, queue)
    requires bs[n].node < |dist| && Less(Finite(bs[n].minutes), dist[bs[n].node])
    ensures var b := bs[n];
      Seeding(adj, bs, n + 1, dist[b.node := Finite(b.minutes)], arr[b.node := Boarded(b.minutes)],
              trips[b.node := Board(b)], queue + multiset{Entry(b.node, b.minutes)})
  {
    var b := bs[n];
    var dist', arr' := dist[b.node := Finite(b.minutes)], arr[b.node := Boarded(b.minutes)];
    var trips', queue' := trips[b.node := Board(b)], queue + multiset{Entry(b.node, b.minutes)};
    assert b in bs;
    forall v | 0 <= v < |dist| ensures Recorded(adj, bs, dist', arr', trips', v) {
      assert Recorded(adj, bs, dist, arr, trips, v);
    }
    assert forall q :: q in queue' ==> q in queue || q == Entry(b.node, b.minutes);
  }

  /** Recording a better arrival at `v` over an edge of the settled node `u` keeps the invariant. */
  lemma RelaxKeeps(adj: seq<seq<Edge>>, bs: seq<Boarding>, dist: seq<Quantity>, arr: seq<Arrival>, trips: seq<Trip>,
                   settled: seq<bool>, queue: multiset<Entry>, level: real, u: nat, e: Edge)
    requires WellFormed(adj, bs) && Invariant(adj, bs, dist, arr, trips, settled, queue, level)
    requires u < |dist| && settled[u] && dist[u] == Finite(level) && e in adj[u]
    requires e.to < |dist| && Less(Finite(level + e.minutes), dist[e.to])
    ensures var c, v := level + e.minutes, e.to;
      && !settled[v]
      && Invariant(adj, bs, dist[v := Finite(c)], arr[v := Hopped(c, u, e)], trips[v := Hop(trips[u], e)],
                   settled, queue + multiset{Entry(v, c)}, level)
  {
    var c, v := level + e.minutes, e.to;
    assert e.minutes >= 0.0;
    assert !settled[v];
    var dist', arr', trips' := dist[v := Finite(c)], arr[v := Hopped(c, u, e)], trips[v := Hop(trips[u], e)];
    forall w | 0 <= w < |dist|
      ensures Recorded(adj, bs, dist', arr', trips', w)
    {
      assert Recorded(adj, bs, dist, arr, trips, w);
    }
    assert forall q :: q in queue + multiset{Entry(v, c)} ==> q in queue || q == Entry(v, c);
  }

  lemma RelaxedStays(adj: seq<seq<Edge>>, dist: seq<Quantity>, v: nat, c: real, u: nat, k: nat)
    requires u < |dist| == |adj| && k <= |adj[u]| && Relaxed(adj, dist, u, k)
    requires v < |dist| && v != u && Less(Finite(c), dist[v])
    ensures Relaxed(adj, dist[v := Finite(c)], u, k)
  {
  }

  lemma AllRelaxedStays(adj: seq<seq<Edge>>, dist: seq<Quantity>, settled: seq<bool>, v: nat, c: real, u: nat)
    requires |dist| == |adj| == |settled| && AllRelaxed(adj, dist, settled, u)
    requires v < |dist| && !settled[v] && Less(Finite(c), dist[v])
    ensures AllRelaxed(adj, dist[v := Finite(c)], settled, u)
  {
    forall w | 0 <= w < |settled| && settled[w] && w != u
      ensures Relaxed(adj, dist[v := Finite(c)], w, |adj[w]|)
    {
      RelaxedStays(adj, dist, v, c, w, |adj[w]|);
    }
  }

  lemma NothingRelaxedYet(adj: seq<seq<Edge>>, dist: seq<Quantity>, u: nat)
    requires u < |dist| == |adj| && dist[u].Finite?
    ensures Relaxed(adj, dist, u, 0)
  {
  }

  lemma RelaxedOneMore(adj: seq<seq<Edge>>, dist: seq<Quantity>, u: nat, k: nat)
    requires u < |dist| == |adj| && k < |adj[u]| && Relaxed(adj, dist, u, k)
    requires adj[u][k].to < |dist| && dist[u].Finite?
    requires !Less(Finite(dist[u].value + adj[u][k].minutes), dist[adj[u][k].to])
    ensures Relaxed(adj, dist, u, k + 1)
  {
  }

  lemma NowAllRelaxed(adj: seq<seq<Edge>>, dist: seq<Quantity>, settled: seq<bool>, u: nat)
    requires u < |dist| == |adj| == |settled|
    requires AllRelaxed(adj, dist, settled, u) && Relaxed(adj, dist, u, |adj[u]|)
    ensures AllRelaxed(adj, dist, settled, -1)
  {
  }

  /** Polling a least entry of an unsettled node and settling it keeps the invariant, at that entry's level. */
  lemma SettleKeeps(adj: seq<seq<Edge>>, bs: seq<Boarding>, dist: seq<Quantity>, arr: seq<Arrival>, trips: seq<Trip>,
                    settled: seq<bool>, queue: multiset<Entry>, level: real, q: Entry)
    requires Invariant(adj, bs, dist, arr, trips, settled, queue, level)
    requires q in queue && (forall p :: p in queue ==> q.minutes <= p.minutes)
    requires q.node < |dist| && !settled[q.node]
    ensures dist[q.node] == Finite(q.minutes)
    ensures Invariant(adj, bs, dist, arr, trips, settled[q.node := true], queue - multiset{q}, q.minutes)
  {
    assert dist[q.node].Finite?;
    assert Entry(q.node, dist[q.node].value) in queue;
    var settled', queue' := settled[q.node := true], queue - multiset{q};
    assert forall p :: p in queue' ==> p in queue;
    forall v | 0 <= v < |dist| && dist[v].Finite? && !settled'[v]
      ensures Entry(v, dist[v].value) in queue'
    {
      assert Entry(v, dist[v].value) in queue && Entry(v, dist[v].value) != q;
    }
  }

  lemma SkipKeeps(adj: seq<seq<Edge>>, bs: seq<Boarding>, dist: seq<Quantity>, arr: seq<Arrival>, trips: seq<Trip>,
                  settled: seq<bool>, queue: multiset<Entry>, level: real, q: Entry)
    requires Invariant(adj, bs, dist, arr, trips, settled, queue, level)
    requires q in queue && q.node < |dist| && settled[q.node]
    ensures Invariant(adj, bs, dist, arr, trips, settled, queue - multiset{q}, level)
  {
    var queue' := queue - multiset{q};
    assert forall p :: p in queue' ==> p in queue;
    forall v | 0 <= v < |dist| && dist[v].Finite? && !settled[v]
      ensures Entry(v, dist[v].value) in queue'
    {
      assert Entry(v, dist[v].value) in queue && Entry(v, dist[v].value) != q;
    }
  }

  /** Once the queue is empty every trip has been accounted for. */
  lemma {:induction false} EmptyQueueBounds(adj: seq<seq<Edge>>, bs: seq<Boarding>, dist: seq<Quantity>,
                                            arr: seq<Arrival>, trips: seq<Trip>, settled: seq<bool>, level: real,
                                            t: Trip)
    requires WellFormed(adj, bs) && Invariant(adj, bs, dist, arr, trips, settled, multiset{}, level)
    requires AllRelaxed(adj, dist, settled, -1) && IsTrip(adj, bs, t)
    ensures End(t) < |dist| && AtMost(dist[End(t)], Cost(t))
  {
    match t
    case Board(b) =>
      var i :| 0 <= i < |bs| && bs[i] == b;
    case Hop(p, e) =>
      EmptyQueueBounds(adj, bs, dist, arr, trips, settled, level, p);
      var u := End(p);
      assert settled[u];
      assert Relaxed(adj, dist, u, |adj[u]|);
      var i :| 0 <= i < |adj[u]| && adj[u][i] == e;
  }

  // ---- The search itself ----------------------------------------------------------

  lemma LeastOf(queue: multiset<Entry>) returns (q: Entry)
    requires queue != multiset{}
    ensures q in queue && forall p :: p in queue ==> q.minutes <= p.minutes
  {
    var x :| x in queue;
    var rest := queue - multiset{x};
    q := x;
    if rest != multiset{} {
      var y := LeastOf(rest);
      if y.minutes < x.minutes {
        q := y;
      }
    }
    forall p | p in queue
      ensures q.minutes <= p.minutes
    {
      if p != x {
        assert p in rest;
      }
    }
  }

  /** Removes a least entry; which one among equals is left open, as the priority queue leaves it. */
  method Poll(queue: multiset<Entry>) returns (q: Entry, rest: multiset<Entry>)
    requires queue != multiset{}
    ensures q in queue && (forall p :: p in queue ==> q.minutes <= p.minutes)
    ensures rest == queue - multiset{q}
  {
    ghost var least := LeastOf(queue);
    q :| q in queue && forall p :: p in queue ==> q.minutes <= p.minutes;
    rest := queue - multiset{q};
  }

  method SeedQueue(bs: seq<Boarding>, dist: array<Quantity>, arrivals: array<Arrival>, ghost adj: seq<seq<Edge>>)
    returns (queue: multiset<Entry>, ghost trips: seq<Trip>, ghost inserted: nat)
    requires WellFormed(adj, bs) && dist.Length == arrivals.Length == |adj|
    requires forall v :: 0 <= v < dist.Length ==> dist[v] == Infinity && arrivals[v] == Unreached
    modifies dist, arrivals
    ensures Invariant(adj, bs, dist[..], arrivals[..], trips, seq(|adj|, i => false), queue, 0.0)
    ensures inserted <= |bs| && |trips| == |adj|
  {
    queue, inserted := multiset{}, 0;
    trips := seq(|adj|, i => Board(Boarding(0, 0.0)));
    for i := 0 to |bs|
      invariant inserted <= i
      invariant Seeding(adj, bs, i, dist[..], arrivals[..], trips, queue)
    {
      var b := bs[i];
      assert b in bs;
      if Less(Finite(b.minutes), dist[b.node]) {
        ghost var dist0, arr0 := dist[..], arrivals[..];
        SeedKeeps(adj, bs, i, dist0, arr0, trips, queue);
        dist[b.node] := Finite(b.minutes);
        arrivals[b.node] := Boarded(b.minutes);
        trips := trips[b.node := Board(b)];
        queue := queue + multiset{Entry(b.node, b.minutes)};
        inserted := inserted + 1;
        assert dist[..] == dist0[b.node := Finite(b.minutes)];
        assert arrivals[..] == arr0[b.node := Boarded(b.minutes)];
      }
    }
  }

  /** Tries every edge out of the node just settled. */
  method RelaxEdges(adj: seq<seq<Edge>>, ghost bs: seq<Boarding>, u: nat, dist: array<Quantity>,
                    arrivals: array<Arrival>, ghost settled: seq<bool>, queue0: multiset<Entry>,
                    ghost trips0: seq<Trip>, ghost level: real)
    returns (queue: multiset<Entry>, ghost trips: seq<Trip>, ghost inserted: nat)
    requires WellFormed(adj, bs) && dist.Length == arrivals.Length == |settled| == |trips0| == |adj|
    requires Invariant(adj, bs, dist[..], arrivals[..], trips0, settled, queue0, level)
    requires u < |settled| && settled[u] && dist[u] == Finite(level)
    requires AllRelaxed(adj, dist[..], settled, u)
    modifies dist, arrivals
    ensures Invariant(adj, bs, dist[..], arrivals[..], trips, settled, queue, level)
    ensures AllRelaxed(adj, dist[..], settled, -1)
    ensures inserted <= |adj[u]| && |trips| == |adj|
  {
    hide Invariant, Relaxed, AllRelaxed;
    queue, trips, inserted := queue0, trips0, 0;
    NothingRelaxedYet(adj, dist[..], u);
    for k := 0 to |adj[u]|
      invariant Invariant(adj, bs, dist[..], arrivals[..], trips, settled, queue, level)
      invariant dist[u] == Finite(level)
      invariant Relaxed(adj, dist[..], u, k)
      invariant AllRelaxed(adj, dist[..], settled, u)
      invariant inserted <= k && |trips| == |adj|
    {
      var edge := adj[u][k];
      assert edge in adj[u];
      var candidate := dist[u].value + edge.minutes;
      if Less(Finite(candidate), dist[edge.to]) {
        ghost var dist0, arr0 := dist[..], arrivals[..];
        RelaxKeeps(adj, bs, dist0, arr0, trips, settled, queue, level, u, edge);
        dist[edge.to] := Finite(candidate);
        arrivals[edge.to] := Hopped(candidate, u, edge);
        trips := trips[edge.to := Hop(trips[u], edge)];
        queue := queue + multiset{Entry(edge.to, candidate)};
        inserted := inserted + 1;
        assert dist[..] == dist0[edge.to := Finite(candidate)];
        assert arrivals[..] == arr0[edge.to := Hopped(candidate, u, edge)];
        RelaxedStays(adj, dist0, edge.to, candidate, u, k);
        AllRelaxedStays(adj, dist0, settled, edge.to, candidate, u);
      }
      RelaxedOneMore(adj, dist[..], u, k);
    }
    NowAllRelaxed(adj, dist[..], settled, u);
  }

  /** Handles one polled entry: skips a settled node, settles any other and tries its edges. */
  method Visit(adj: seq<seq<Edge>>, ghost bs: seq<Boarding>, q: Entry, dist: array<Quantity>,
               arrivals: array<Arrival>, settled: array<bool>, queue0: multiset<Entry>, rest: multiset<Entry>,
               ghost trips0: seq<Trip>, ghost level0: real)
    returns (queue: multiset<Entry>, ghost trips: seq<Trip>, ghost level: real, ghost inserted: nat)
    requires WellFormed(adj, bs) && dist.Length == arrivals.Length == settled.Length == |trips0| == |adj|
    requires Invariant(adj, bs, dist[..], arrivals[..], trips0, settled[..], queue0, level0)
    requires AllRelaxed(adj, dist[..], settled[..], -1)
    requires q in queue0 && (forall p :: p in queue0 ==> q.minutes <= p.minutes) && rest == queue0 - multiset{q}
    modifies dist, arrivals, settled
    ensures Invariant(adj, bs, dist[..], arrivals[..], trips, settled[..], queue, level)
    ensures AllRelaxed(adj, dist[..], settled[..], -1)
    ensures q.node < |adj| && |trips| == |adj|
    ensures old(settled[q.node]) ==> queue == rest && settled[..] == old(settled[..]) && inserted == 0
    ensures !old(settled[q.node]) ==> settled[..] == old(settled[..])[q.node := true] && inserted <= |adj[q.node]|
  {
    hide Invariant, AllRelaxed, Less, AtMost, WellFormed;
    var u := q.node;
    PolledNode(adj, bs, dist[..], arrivals[..], trips0, settled[..], queue0, level0, q);
    if settled[u] {
      SkipKeeps(adj, bs, dist[..], arrivals[..], trips0, settled[..], queue0, level0, q);
      queue, trips, level, inserted := rest, trips0, level0, 0;
      return;
    }
    SettleKeeps(adj, bs, dist[..], arrivals[..], trips0, settled[..], queue0, level0, q);
    SettleRelaxed(adj, dist[..], settled[..], u);
    ghost var settled0 := settled[..];
    settled[u] := true;
    assert settled[..] == settled0[u := true];
    level := q.minutes;
    queue, trips, inserted := RelaxEdges(adj, bs, u, dist, arrivals, settled[..], rest, trips0, level);
  }

  method Search(adj: seq<seq<Edge>>, bs: seq<Boarding>)
    returns (dist: array<Quantity>, arrivals: array<Arrival>, ghost trips: seq<Trip>, ghost inserted: nat)
    requires WellFormed(adj, bs)
    ensures fresh(dist) && fresh(arrivals)
    ensures IsForest(adj, bs, dist[..], arrivals[..], trips)
    ensures Bounds(adj, bs, dist[..])
    ensures inserted <= |bs| + EdgeCount(adj)
  {
    var n := |adj|;
    dist := new Quantity[n](_ => Infinity);
    arrivals := new Arrival[n](_ => Unreached);
    var queue;
    queue, trips, inserted := SeedQueue(bs, dist, arrivals, adj);
    var settled := new bool[n](_ => false);
    ghost var level := 0.0;
    ghost var w := OutDegrees(adj);
    assert settled[..] == seq(n, i => false);
    hide Invariant, AllRelaxed, Less, AtMost, WellFormed, IsForest, Bounds, EdgeCount, Tally, OutDegrees, Ones;
    NothingRelaxed(adj, dist[..], settled[..]);
    NothingTallied(settled[..], w, n);
    while queue != multiset{}
      invariant Invariant(adj, bs, dist[..], arrivals[..], trips, settled[..], queue, level)
      invariant AllRelaxed(adj, dist[..], settled[..], -1)
      invariant inserted <= |bs| + Tally(settled[..], w, n) && |trips| == n
      decreases n - Tally(settled[..], Ones(n), n), |queue|
    {
      var q, rest := Poll(queue);
      ghost var settled0 := settled[..];
      ghost var added;
      queue, trips, level, added := Visit(adj, bs, q, dist, arrivals, settled, queue, rest, trips, level);
      inserted := inserted + added;
      if !settled0[q.node] {
        TallySettle(settled0, w, n, q.node);
        TallySettle(settled0, Ones(n), n, q.node);
        AtMostAll(settled[..], n);
      }
    }
    TallyAtMost(settled[..], w, n);
    Finished(adj, bs, dist[..], arrivals[..], trips, settled[..], level, inserted);
  }

  lemma Finished(adj: seq<seq<Edge>>, bs: seq<Boarding>, dist: seq<Quantity>, arr: seq<Arrival>, trips: seq<Trip>,
                 settled: seq<bool>, level: real, inserted: nat)
    requires WellFormed(adj, bs) && Invariant(adj, bs, dist, arr, trips, settled, multiset{}, level)
    requires AllRelaxed(adj, dist, settled, -1)
    requires inserted <= |bs| + Tally(seq(|adj|, i => true), OutDegrees(adj), |adj|)
    ensures IsForest(adj, bs, dist, arr, trips) && Bounds(adj, bs, dist)
    ensures inserted <= |bs| + EdgeCount(adj)
  {
    forall t | IsTrip(adj, bs, t)
      ensures End(t) < |dist| && AtMost(dist[End(t)], Cost(t))
    {
      EmptyQueueBounds(adj, bs, dist, arr, trips, settled, level, t);
    }
  }

  lemma PolledNode(adj: seq<seq<Edge>>, bs: seq<Boarding>, dist: seq<Quantity>, arr: seq<Arrival>, trips: seq<Trip>,
                   settled: seq<bool>, queue: multiset<Entry>, level: real, q: Entry)
    requires Invariant(adj, bs, dist, arr, trips, settled, queue, level) && q in queue
    ensures q.node < |dist|
  {
  }

  lemma NothingRelaxed(adj: seq<seq<Edge>>, dist: seq<Quantity>, settled: seq<bool>)
    requires |dist| == |adj| == |settled| && settled == seq(|adj|, i => false)
    ensures AllRelaxed(adj, dist, settled, -1)
  {
  }

  lemma SettleRelaxed(adj: seq<seq<Edge>>, dist: seq<Quantity>, settled: seq<bool>, u: nat)
    requires u < |dist| == |adj| == |settled| && AllRelaxed(adj, dist, settled, -1)
    ensures AllRelaxed(adj, dist, settled[u := true], u)
  {
  }

  lemma {:induction false} NothingTallied(settled: seq<bool>, w: seq<nat>, n: nat)
    requires n <= |settled| == |w| && forall i :: 0 <= i < |settled| ==> !settled[i]
    ensures Tally(settled, w, n) == 0
  {
    if n > 0 {
      NothingTallied(settled, w, n - 1);
    }
  }

  lemma {:induction false} AtMostAll(settled: seq<bool>, n: nat)
    requires n <= |settled|
    ensures Tally(settled, Ones(|settled|), n) <= n
  {
    if n > 0 {
      AtMostAll(settled, n - 1);
    }
  }

  // ---- Reading the result ------------------------------------------------------------

  /** The recorded arrivals of a reached node spell out a trip to it of exactly its distance. */
  lemma {:induction false} TripTo(adj: seq<seq<Edge>>, bs: seq<Boarding>, dist: seq<Quantity>, arr: seq<Arrival>,
                                  trips: seq<Trip>, v: nat)
    requires IsForest(adj, bs, dist, arr, trips) && v < |dist| && dist[v].Finite?
    ensures IsTrip(adj, bs, trips[v]) && End(trips[v]) == v && Cost(trips[v]) == dist[v].value
    decreases trips[v]
  {
    assert Recorded(adj, bs, dist, arr, trips, v);
    if arr[v].Hopped? {
      var u := arr[v].viaNode;
      assert trips[v] == Hop(trips[u], arr[v].viaEdge);
      TripTo(adj, bs, dist, arr, trips, u);
    }
  }

  /** A distance is the least cost of any trip to the node, and infinite exactly when there is no trip. */
  lemma LeastCost(adj: seq<seq<Edge>>, bs: seq<Boarding>, dist: seq<Quantity>, arr: seq<Arrival>,
                  trips: seq<Trip>, v: nat)
    requires IsForest(adj, bs, dist, arr, trips) && Bounds(adj, bs, dist) && v < |dist|
    ensures dist[v] == Infinity <==> !exists t :: IsTrip(adj, bs, t) && End(t) == v
    ensures dist[v].Finite? ==>
      && (exists t :: IsTrip(adj, bs, t) && End(t) == v && Cost(t) == dist[v].value)
      && (forall t :: IsTrip(adj, bs, t) && End(t) == v ==> dist[v].value <= Cost(t))
  {
    if dist[v].Finite? {
      TripTo(adj, bs, dist, arr, trips, v);
    }
  }

  /** The nodes of a trip, from boarding to end. */
  function Stations(t: Trip): (ns: seq<nat>)
    ensures |ns| > 0 && ns[|ns| - 1] == End(t)
  {
    match t
    case Board(b) => [b.node]
    case Hop(p, e) => Stations(p) + [e.to]
  }

  function Hops(t: Trip): (es: seq<Edge>)
    ensures |es| + 1 == |Stations(t)|
  {
    match t
    case Board(b) => []
    case Hop(p, e) => Hops(p) + [e]
  }

  function Start(t: Trip): Boarding {
    match t
    case Board(b) => b
    case Hop(p, _) => Start(p)
  }

  /** Every initial part of a recorded trip is itself the recorded trip of the node where it ends. */
  lemma {:induction false} Prefixes(adj: seq<seq<Edge>>, bs: seq<Boarding>, dist: seq<Quantity>, arr: seq<Arrival>,
                                    trips: seq<Trip>, v: nat, i: nat)
    requires IsForest(adj, bs, dist, arr, trips) && v < |dist| && dist[v].Finite? && i < |Stations(trips[v])|
    ensures var w := Stations(trips[v])[i];
      w < |dist| && dist[w].Finite? && Stations(trips[w]) == Stations(trips[v])[..i + 1]
    decreases trips[v]
  {
    assert Recorded(adj, bs, dist, arr, trips, v);
    if i == |Stations(trips[v])| - 1 {
      TripTo(adj, bs, dist, arr, trips, v);
      assert Stations(trips[v])[..i + 1] == Stations(trips[v]);
    } else {
      var u := arr[v].viaNode;
      Prefixes(adj, bs, dist, arr, trips, u, i);
      assert Stations(trips[v])[..i + 1] == Stations(trips[u])[..i + 1];
    }
  }

  /** Station `i` of a recorded trip was last reached over hop `i - 1` of that trip. */
  lemma {:induction false} RecordedHops(adj: seq<seq<Edge>>, bs: seq<Boarding>, dist: seq<Quantity>, arr: seq<Arrival>,
                                        trips: seq<Trip>, v: nat, i: nat)
    requires IsForest(adj, bs, dist, arr, trips) && v < |dist| && dist[v].Finite? && 0 < i < |Stations(trips[v])|
    ensures var w := Stations(trips[v])[i];
      w < |arr| && arr[w].Hopped? && arr[w].viaEdge == Hops(trips[v])[i - 1]
    decreases trips[v]
  {
    assert Recorded(adj, bs, dist, arr, trips, v);
    TripTo(adj, bs, dist, arr, trips, v);
    if i < |Stations(trips[v])| - 1 {
      RecordedHops(adj, bs, dist, arr, trips, arr[v].viaNode, i);
    }
  }

  /** The recorded links form a forest: walking them back from any node meets no node twice. */
  lemma NoRepeats(adj: seq<seq<Edge>>, bs: seq<Boarding>, dist: seq<Quantity>, arr: seq<Arrival>,
                  trips: seq<Trip>, v: nat, i: nat, j: nat)
    requires IsForest(adj, bs, dist, arr, trips) && v < |dist| && dist[v].Finite?
    requires i < j < |Stations(trips[v])|
    ensures Stations(trips[v])[i] != Stations(trips[v])[j]
  {
    Prefixes(adj, bs, dist, arr, trips, v, i);
    Prefixes(adj, bs, dist, arr, trips, v, j);
  }

  /** Each hop of a trip is an edge of the node it leaves. */
  lemma {:induction false} HopsAreEdges(adj: seq<seq<Edge>>, bs: seq<Boarding>, t: Trip, i: nat)
    requires IsTrip(adj, bs, t) && i < |Hops(t)|
    ensures Stations(t)[i] < |adj| && Hops(t)[i] in adj[Stations(t)[i]] && Hops(t)[i].to == Stations(t)[i + 1]
  {
    if i + 1 < |Hops(t)| {
      HopsAreEdges(adj, bs, t.prev, i);
    }
  }

  lemma {:induction false} StartIsBoarding(adj: seq<seq<Edge>>, bs: seq<Boarding>, t: Trip)
    requires IsTrip(adj, bs, t)
    ensures Start(t) in bs && Stations(t)[0] == Start(t).node
  {
    if t.Hop? {
      StartIsBoarding(adj, bs, t.prev);
    }
  }
}
