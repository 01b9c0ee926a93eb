/** The stops a rider may walk to or from: the ten nearest within reach. */
module Access {
  import opened Geo
  import opened Network

  const MAX_ACCESS_WALK_KM := 1.5
  const MAX_ACCESS_CANDIDATES := 10

  predicate WithinReach(d: Distance, p: Point, node: Node) {
    d(p, node.stop.at) <= MAX_ACCESS_WALK_KM
  }

  function InReach(d: Distance, p: Point, nodes: seq<Node>): seq<Node> {
    if nodes == [] then []
    else
      var last := nodes[|nodes| - 1];
      InReach(d, p, nodes[..|nodes| - 1]) + if WithinReach(d, p, last) then [last] else []
  }

  /** Stable: `x` goes behind every node that is at most as far. */
  function Insert(d: Distance, p: Point, x: Node, s: seq<Node>): seq<Node> {
    if s == [] then [x]
    else
      var last := s[|s| - 1];
      if d(p, last.stop.at) <= d(p, x.stop.at) then s + [x]
      else Insert(d, p, x, s[..|s| - 1]) + [last]
  }

  function SortByDistance(d: Distance, p: Point, s: seq<Node>): seq<Node> {
    if s == [] then [] else Insert(d, p, s[|s| - 1], SortByDistance(d, p, s[..|s| - 1]))
  }

  function AccessCandidates(d: Distance, p: Point, nodes: seq<Node>): seq<Node> {
    var sorted := SortByDistance(d, p, InReach(d, p, nodes));
    if |sorted| <= MAX_ACCESS_CANDIDATES then sorted else sorted[..MAX_ACCESS_CANDIDATES]
  }

  // ---- What the candidates are --------------------------------------------------

  /** Nearer, or equally near and earlier among the nodes. */
  predicate Before(d: Distance, p: Point, a: Node, b: Node) {
    d(p, a.stop.at) < d(p, b.stop.at) || (d(p, a.stop.at) == d(p, b.stop.at) && a.id < b.id)
  }

  ghost predicate InOrder(d: Distance, p: Point, s: seq<Node>) {
    forall i, j :: 0 <= i < j < |s| ==> Before(d, p, s[i], s[j])
  }

  ghost predicate IdsGrow(s: seq<Node>) {
    forall i, j :: 0 <= i < j < |s| ==> s[i].id < s[j].id
  }

  lemma {:induction false} InReachContains(d: Distance, p: Point, nodes: seq<Node>, x: Node)
    ensures x in InReach(d, p, nodes) <==> x in nodes && WithinReach(d, p, x)
  {
    if nodes != [] {
      var n := |nodes| - 1;
      InReachContains(d, p, nodes[..n], x);
      assert nodes == nodes[..n] + [nodes[n]];
    }
  }

  lemma {:induction false} InReachGrows(d: Distance, p: Point, nodes: seq<Node>)
    requires IdsGrow(nodes)
    ensures IdsGrow(InReach(d, p, nodes))
  {
    if nodes != [] {
      var n := |nodes| - 1;
      var before := InReach(d, p, nodes[..n]);
      InReachGrows(d, p, nodes[..n]);
      forall i | 0 <= i < |before|
        ensures before[i].id < nodes[n].id
      {
        InReachContains(d, p, nodes[..n], before[i]);
      }
    }
  }

  lemma {:induction false} InsertContains(d: Distance, p: Point, x: Node, s: seq<Node>, y: Node)
    ensures y in Insert(d, p, x, s) <==> y == x || y in s
  {
    if s != [] {
      InsertContains(d, p, x, s[..|s| - 1], y);
      assert s == s[..|s| - 1] + [s[|s| - 1]];
    }
  }

  lemma {:induction false} InsertInOrder(d: Distance, p: Point, x: Node, s: seq<Node>)
    requires InOrder(d, p, s) && forall y :: y in s ==> y.id < x.id
    ensures InOrder(d, p, Insert(d, p, x, s))
  {
    if s != [] {
      var n := |s| - 1;
      if d(p, s[n].stop.at) > d(p, x.stop.at) {
        var front := Insert(d, p, x, s[..n]);
        InsertInOrder(d, p, x, s[..n]);
        forall i | 0 <= i < |front|
          ensures Before(d, p, front[i], s[n])
        {
          InsertContains(d, p, x, s[..n], front[i]);
        }
      }
    }
  }

  lemma {:induction false} SortContains(d: Distance, p: Point, s: seq<Node>, x: Node)
    ensures x in SortByDistance(d, p, s) <==> x in s
  {
    if s != [] {
      var n := |s| - 1;
      SortContains(d, p, s[..n], x);
      InsertContains(d, p, s[n], SortByDistance(d, p, s[..n]), x);
      assert s == s[..n] + [s[n]];
    }
  }

  lemma {:induction false} SortInOrder(d: Distance, p: Point, s: seq<Node>)
    requires IdsGrow(s)
    ensures InOrder(d, p, SortByDistance(d, p, s))
  {
    if s != [] {
      var n := |s| - 1;
      SortInOrder(d, p, s[..n]);
      forall y | y in SortByDistance(d, p, s[..n])
        ensures y.id < s[n].id
      {
        SortContains(d, p, s[..n], y);
      }
      InsertInOrder(d, p, s[n], SortByDistance(d, p, s[..n]));
    }
  }

  /** At most ten nodes, all within reach, nearest first; a node within reach is left out only for ten nearer ones. */
  lemma CandidatesAreNearest(d: Distance, p: Point, nodes: seq<Node>)
    requires IdsGrow(nodes)
    ensures var cs := AccessCandidates(d, p, nodes);
      && |cs| <= 10 && InOrder(d, p, cs)
      && (forall c :: c in cs ==> c in nodes && d(p, c.stop.at) <= 1.5)
      && (forall x :: x in nodes && d(p, x.stop.at) <= 1.5 && x !in cs ==>
            |cs| == 10 && forall c :: c in cs ==> Before(d, p, c, x))
  {
    var reach := InReach(d, p, nodes);
    var sorted := SortByDistance(d, p, reach);
    var cs := AccessCandidates(d, p, nodes);
    InReachGrows(d, p, nodes);
    SortInOrder(d, p, reach);
    forall c | c in cs
      ensures c in nodes && WithinReach(d, p, c)
    {
      SortContains(d, p, reach, c);
      InReachContains(d, p, nodes, c);
    }
    forall x | x in nodes && WithinReach(d, p, x) && x !in cs
      ensures |cs| == MAX_ACCESS_CANDIDATES && forall c :: c in cs ==> Before(d, p, c, x)
    {
      SortContains(d, p, reach, x);
      InReachContains(d, p, nodes, x);
      var j :| 0 <= j < |sorted| && sorted[j] == x;
      assert forall i :: 0 <= i < |cs| ==> cs[i] == sorted[i] && cs[i] != x;
    }
  }
}
