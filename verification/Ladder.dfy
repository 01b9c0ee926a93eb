/** The line diagram: where the bus bead stands between the rows of the stops. */
module Ladder {
  import opened Geo
  import opened Polyline

  const PASSED_MARGIN_KM := 0.02

  /** The stop pair the bead is drawn in, counting on from `seg`. */
  function Bracket(cum: seq<real>, busKm: real, seg: nat): (s: nat)
    requires seg + 2 <= |cum|
    ensures seg <= s && s + 2 <= |cum|
    ensures s == |cum| - 2 || busKm <= cum[s + 1]
    ensures forall i :: seg < i <= s ==> cum[i] < busKm
    decreases |cum| - seg
  {
    if seg < |cum| - 2 && busKm > cum[seg + 1] then Bracket(cum, busKm, seg + 1) else seg
  }

  /** How far between the two rows; nowhere if the stops share their place. */
  function Share(cum: seq<real>, busKm: real, seg: nat): (t: real)
    requires seg + 2 <= |cum|
    ensures 0.0 <= t <= 1.0
  {
    var span := cum[seg + 1] - cum[seg];
    if span > 0.0 then Clamp((busKm - cum[seg]) / span) else 0.0
  }

  function Bead(cum: seq<real>, tops: seq<real>, busKm: real): real
    requires 0 < |cum| == |tops|
  {
    if |cum| == 1 then tops[0]
    else
      var seg := Bracket(cum, busKm, 0);
      tops[seg] + Times(Share(cum, busKm, seg), tops[seg + 1] - tops[seg])
  }

  predicate Passed(cum: seq<real>, busKm: real, i: nat)
    requires i < |cum|
  {
    cum[i] < busKm - PASSED_MARGIN_KM
  }

  /** Half the bead's own height, by which its upper edge lies above its middle. */
  const BEAD_OFFSET := 11.0

  /** `tops` are the middles of the rows; a single stop is a row of its own. `top` is the bead's upper edge. */
  method UpdateBusPosition(cum: seq<real>, tops: seq<real>, busKm: real) returns (top: real, passed: seq<bool>)
    requires 0 < |cum| == |tops|
    ensures top == Bead(cum, tops, busKm) - 11.0
    ensures |passed| == |cum| && forall i :: 0 <= i < |cum| ==> (passed[i] <==> cum[i] < busKm - 0.02)
  {
    var seg := 0;
    while seg < |cum| - 2 && busKm > cum[seg + 1]
      invariant |cum| >= 2 ==> seg + 2 <= |cum| && Bracket(cum, busKm, seg) == Bracket(cum, busKm, 0)
      invariant |cum| == 1 ==> seg == 0
    {
      seg := seg + 1;
    }
    var below := if seg + 1 < |tops| then seg + 1 else |tops| - 1;
    var t := if |cum| == 1 then 0.0 else Share(cum, busKm, seg);
    top := tops[seg] + Times(t, tops[below] - tops[seg]) - BEAD_OFFSET;
    passed := [];
    for i := 0 to |cum|
      invariant |passed| == i && forall j :: 0 <= j < i ==> passed[j] == Passed(cum, busKm, j)
    {
      passed := passed + [cum[i] < busKm - PASSED_MARGIN_KM];
    }
    assert |cum| == 1 ==> tops[below] - tops[seg] == 0.0;
  }

  // ---- What the rider sees -----------------------------------------------------

  ghost predicate NonDecreasing(s: seq<real>) {
    forall i, j :: 0 <= i <= j < |s| ==> s[i] <= s[j]
  }

  /**
   * The bead stands between the first two neighbouring rows whose stops have the bus between them, as far from the
   * upper one, in proportion, as the bus from its stop; it stops at the rows' ends, and at the upper one if the two
   * stops share their place. Before the first stop these are the first two rows, past the last stop the last two.
   */
  lemma BeadIsProportional(cum: seq<real>, tops: seq<real>, busKm: real) returns (seg: nat)
    requires 2 <= |cum| == |tops|
    ensures seg + 2 <= |cum| && (seg == |cum| - 2 || busKm <= cum[seg + 1])
    ensures forall i :: 0 < i <= seg ==> cum[i] < busKm
    ensures var from, to, bead := cum[seg], cum[seg + 1], Bead(cum, tops, busKm);
      if to <= from || busKm <= from then bead == tops[seg]
      else if busKm >= to then bead == tops[seg + 1]
      else (bead - tops[seg]) * (to - from) == (busKm - from) * (tops[seg + 1] - tops[seg])
  {
    seg := Bracket(cum, busKm, 0);
    var span, rows := cum[seg + 1] - cum[seg], tops[seg + 1] - tops[seg];
    NoStep(rows);
    TimesOne(rows);
    if span > 0.0 {
      var t := (busKm - cum[seg]) / span;
      assert t * span == busKm - cum[seg];
      if busKm <= cum[seg] {
        assert t <= 0.0;
      } else if busKm >= cum[seg + 1] {
        AtLeastOne(busKm - cum[seg], span);
      } else {
        Within(busKm - cum[seg], span);
        assert Share(cum, busKm, seg) == t;
        Regroup(t, rows, span);
      }
    }
  }

  lemma Within(x: real, span: real)
    requires 0.0 < x < span
    ensures 0.0 < x / span <= 1.0
  {
    var t := x / span;
    assert t * span == x;
    OrderedFractions(t, 1.0, span);
  }

  lemma Regroup(t: real, rows: real, span: real)
    ensures Times(t, rows) * span == (t * span) * rows
  {
  }

  /** At a stop the bead stands on its row, where the stops come one after the other. */
  lemma BeadOnRow(cum: seq<real>, tops: seq<real>, i: nat)
    requires 2 <= |cum| == |tops| && i < |cum| && forall j, k :: 0 <= j < k < |cum| ==> cum[j] < cum[k]
    ensures Bead(cum, tops, cum[i]) == tops[i]
  {
    var seg := BeadIsProportional(cum, tops, cum[i]);
    assert seg == i || seg + 1 == i;
  }

  lemma BeadInSegment(cum: seq<real>, tops: seq<real>, busKm: real)
    requires 2 <= |cum| == |tops| && NonDecreasing(tops)
    ensures var seg := Bracket(cum, busKm, 0); tops[seg] <= Bead(cum, tops, busKm) <= tops[seg + 1]
  {
    hide Times, Share;
    var seg := Bracket(cum, busKm, 0);
    ScaledBy(Share(cum, busKm, seg), tops[seg + 1] - tops[seg]);
  }

  lemma {:induction false} BracketGrows(cum: seq<real>, x: real, y: real, seg: nat)
    requires seg + 2 <= |cum| && x <= y
    ensures Bracket(cum, x, seg) <= Bracket(cum, y, seg)
    decreases |cum| - seg
  {
    if seg < |cum| - 2 && x > cum[seg + 1] {
      BracketGrows(cum, x, y, seg + 1);
    }
  }

  lemma ShareGrows(cum: seq<real>, x: real, y: real, seg: nat)
    requires seg + 2 <= |cum| && x <= y
    ensures Share(cum, x, seg) <= Share(cum, y, seg)
  {
    var span := cum[seg + 1] - cum[seg];
    if span > 0.0 {
      assert (x - cum[seg]) / span <= (y - cum[seg]) / span;
    }
  }

  lemma TimesGrows(s: real, t: real, h: real)
    requires s <= t && h >= 0.0
    ensures Times(s, h) <= Times(t, h)
  {
    if s < t && h > 0.0 {
      TimesPositive(t - s, h);
      Subtract(t, s, h);
    }
  }

  /**
   * A bus further along is never drawn higher than one behind it, wherever the stops project to:
   * the rows alone have to be in order. The bead never leaves the ladder.
   */
  lemma BeadIsMonotone(cum: seq<real>, tops: seq<real>, x: real, y: real)
    requires 0 < |cum| == |tops| && NonDecreasing(tops) && x <= y
    ensures tops[0] <= Bead(cum, tops, x) <= Bead(cum, tops, y) <= tops[|tops| - 1]
  {
    hide Times, Share;
    if |cum| >= 2 {
      var p, q := Bracket(cum, x, 0), Bracket(cum, y, 0);
      BracketGrows(cum, x, y, 0);
      BeadInSegment(cum, tops, x);
      BeadInSegment(cum, tops, y);
      if p == q {
        ShareGrows(cum, x, y, p);
        TimesGrows(Share(cum, x, p), Share(cum, y, p), tops[p + 1] - tops[p]);
      } else {
        assert tops[p + 1] <= tops[q];
      }
    }
  }

  /**
   * A row marked as passed lies below the bead only if it is the last one and its stop shares its place with the
   * stop before: there the bead stays on the upper of the two rows.
   */
  lemma PassedLiesAbove(cum: seq<real>, tops: seq<real>, busKm: real, i: nat)
    requires 2 <= |cum| == |tops| && NonDecreasing(tops) && NonDecreasing(cum)
    requires i < |cum| && Passed(cum, busKm, i)
    ensures var n := |cum| - 1;
      tops[i] <= Bead(cum, tops, busKm) <==> !(i == n && cum[n - 1] == cum[n] && tops[n - 1] < tops[n])
  {
    hide Times;
    var n, seg := |cum| - 1, Bracket(cum, busKm, 0);
    BeadInSegment(cum, tops, busKm);
    if i > seg {
      assert cum[seg + 1] <= cum[i] < busKm;
      assert seg + 1 == n == i;
      LastRow(cum, tops, busKm);
    } else {
      assert tops[i] <= tops[seg];
    }
  }

  /** Beyond the last stop the bead stays on the last row, or on the one before if the last two share their place. */
  lemma LastRow(cum: seq<real>, tops: seq<real>, busKm: real)
    requires 2 <= |cum| == |tops| && cum[|cum| - 1] <= busKm && NonDecreasing(cum)
    requires Bracket(cum, busKm, 0) == |cum| - 2
    ensures var n := |cum| - 1;
      Bead(cum, tops, busKm) == if cum[n - 1] == cum[n] then tops[n - 1] else tops[n]
  {
    hide Times;
    var n := |cum| - 1;
    var span := cum[n] - cum[n - 1];
    TimesOne(tops[n] - tops[n - 1]);
    NoStep(tops[n] - tops[n - 1]);
    if span > 0.0 {
      AtLeastOne(busKm - cum[n - 1], span);
    }
  }

  /** Two last stops at one place: the bus has passed both, and the bead stays on the upper one. */
  lemma LastRowPassedBelow()
    ensures var cum, tops := [0.0, 1.0, 1.0], [0.0, 40.0, 80.0];
      && NonDecreasing(cum) && NonDecreasing(tops)
      && Passed(cum, 1.2, 2) && Bead(cum, tops, 1.2) == 40.0 < tops[2]
  {
    var cum, tops := [0.0, 1.0, 1.0], [0.0, 40.0, 80.0];
    assert Bracket(cum, 1.2, 1) == 1;
    LastRow(cum, tops, 1.2);
  }

  lemma NoStep(h: real)
    ensures Times(0.0, h) == 0.0
  {
  }

  lemma AtLeastOne(x: real, span: real)
    requires 0.0 < span <= x
    ensures x / span >= 1.0
  {
  }

  /** The passed rows are the first few for every position of the bus exactly when the stops come in order. */
  lemma PassedIsAPrefix(cum: seq<real>)
    ensures NonDecreasing(cum) <==>
            forall km, i, j :: 0 <= i <= j < |cum| && Passed(cum, km, j) ==> Passed(cum, km, i)
  {
    if !NonDecreasing(cum) {
      var i, j :| 0 <= i <= j < |cum| && cum[i] > cum[j];
      assert Passed(cum, cum[i] + PASSED_MARGIN_KM, j) && !Passed(cum, cum[i] + PASSED_MARGIN_KM, i);
    }
  }
}
