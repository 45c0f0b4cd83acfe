// Where a long line is cut: the via points are on the line, and the times at which playback
// reaches them are those of a steady motion up to the rounding of the halved durations.
module LineSplitting {
  import opened Basics
  import opened Parsing
  import opened TrajectoryFormat
  import opened Drawing
  import opened Varint

  /** One piece of a line: it ends at this fraction of the way, at this time, after so many
      halvings of the duration. */
  datatype Leg = Leg(fraction: real, duration: nat, at: nat, halvings: nat)

  function Legs(from: real, to: real, start: nat, duration: nat, halvings: nat): (legs: seq<Leg>)
    ensures |legs| >= 1
    decreases duration
  {
    if duration > MAX_DURATION_MSEC then
      var mid, half := (from + to) / 2.0, duration / 2;
      Legs(from, mid, start, half, halvings + 1)
      + Legs(mid, to, start + half, duration - half, halvings + 1)
    else [Leg(to, duration, start + duration, halvings)]
  }

  /** The leg ends no later than a steady motion over `total` ms would be there, and at most
      half a millisecond for every halving earlier. */
  ghost predicate Punctual(leg: Leg, total: nat) {
    0.0 <= Early(leg.fraction, leg.at, total) <= leg.halvings as real / 2.0
  }

  function Early(fraction: real, at: nat, total: nat): real { fraction * total as real - at as real }

  lemma {:induction false} LegsPunctual(from: real, to: real, start: nat, duration: nat, k: nat, total: nat)
    requires 0.0 <= Early(from, start, total) <= k as real / 2.0
    requires 0.0 <= Early(to, start + duration, total) <= k as real / 2.0
    ensures forall i :: 0 <= i < |Legs(from, to, start, duration, k)| ==>
                  Punctual(Legs(from, to, start, duration, k)[i], total)
    decreases duration
  {
    hide Early;
    if duration > MAX_DURATION_MSEC {
      var mid, half := (from + to) / 2.0, duration / 2;
      EarlyMiddle(from, to, start, duration, total);
      LegsPunctual(from, mid, start, half, k + 1, total);
      LegsPunctual(mid, to, start + half, duration - half, k + 1, total);
    }
  }

  lemma EarlyMiddle(from: real, to: real, start: nat, duration: nat, total: nat)
    ensures var e := Early((from + to) / 2.0, start + duration / 2, total);
            var m := (Early(from, start, total) + Early(to, start + duration, total)) / 2.0;
            m <= e <= m + 0.5
  {
    var d := total as real;
    assert (from + to) / 2.0 * d == (from * d + to * d) / 2.0;
  }

  /** The number of halvings is limited by the duration. */
  lemma {:induction false} LegsHalvings(from: real, to: real, start: nat, duration: nat, k: nat, total: nat)
    requires (duration - 1) * Pow2(k) <= total - 1 && total < UINT32_MODULUS && k <= 17
    ensures forall i :: 0 <= i < |Legs(from, to, start, duration, k)| ==>
                  Legs(from, to, start, duration, k)[i].halvings <= 17
    decreases duration
  {
    if duration > MAX_DURATION_MSEC {
      var mid, half := (from + to) / 2.0, duration / 2;
      HalvedAgain(duration, k, total);
      LegsHalvings(from, mid, start, half, k + 1, total);
      LegsHalvings(mid, to, start + half, duration - half, k + 1, total);
    }
  }

  lemma HalvedAgain(duration: nat, k: nat, total: nat)
    requires (duration - 1) * Pow2(k) <= total - 1 && total < UINT32_MODULUS && k <= 17
    requires duration > MAX_DURATION_MSEC
    ensures k < 17
    ensures (duration / 2 - 1) * Pow2(k + 1) <= total - 1
    ensures (duration - duration / 2 - 1) * Pow2(k + 1) <= total - 1
  {
    var p := Pow2(k);
    assert Pow2(k + 1) == 2 * p;
    FewHalvings(duration, k);
    hide Pow2;
    DoubleBelow(duration / 2 - 1, duration - 1, p);
    DoubleBelow(duration - duration / 2 - 1, duration - 1, p);
  }

  lemma FewHalvings(duration: nat, k: nat)
    requires (duration - 1) * Pow2(k) < UINT32_MODULUS && k <= 17 && duration > MAX_DURATION_MSEC
    ensures k < 17
  {
    Pow2Of17();
    hide Pow2;
    NotLess(duration - 1, 60000, Pow2(k));
  }

  lemma NotLess(a: nat, b: nat, p: nat)
    requires a >= b
    ensures a * p >= b * p
  {
    assert (a - b) * p >= 0;
  }

  lemma Pow2Of17()
    ensures Pow2(17) == 131072
  {
    Pow2Add7(0);
    Pow2Add7(7);
    assert Pow2(17) == 2 * Pow2(16) == 4 * Pow2(15) == 8 * Pow2(14);
  }

  lemma DoubleBelow(a: int, b: int, p: nat)
    requires 2 * a <= b
    ensures a * (2 * p) <= b * p
  {
    assert a * (2 * p) == (2 * a) * p;
    assert (b - 2 * a) * p >= 0;
  }

  // ---- the legs are what the builder writes ----

  /** The point of the line at a fraction of the way. */
  function Along(a: Point, b: Point, f: real): Point {
    Point(Part(a.x, b.x, f), Part(a.y, b.y, f), Part(a.z, b.z, f), Part(a.yaw, b.yaw, f))
  }

  function Part(a: real, b: real, f: real): real { a + f * (b - a) }

  function SegmentsOf(a: Point, b: Point, from: real, legs: seq<Leg>, scale: nat): seq<Segment>
    requires scale > 0
    decreases |legs|
  {
    if legs == [] then []
    else
      var leg := legs[0];
      [LineSegment(Along(a, b, from), Along(a, b, leg.fraction), leg.duration, scale)]
      + SegmentsOf(a, b, leg.fraction, legs[1..], scale)
  }

  /** The times of the legs follow from their durations. */
  ghost predicate Chained(legs: seq<Leg>, start: nat)
    decreases |legs|
  {
    legs == [] || (legs[0].at == start + legs[0].duration && Chained(legs[1..], legs[0].at))
  }

  /** The legs lead without a gap up to this fraction and time. */
  ghost predicate LeadTo(legs: seq<Leg>, start: nat, to: real, end: nat) {
    legs != [] && Chained(legs, start) && legs[|legs| - 1].fraction == to && legs[|legs| - 1].at == end
  }

  lemma {:induction false} LeadFurther(p: seq<Leg>, q: seq<Leg>, start: nat, mid: real, middle: nat, to: real, end: nat)
    requires LeadTo(p, start, mid, middle) && LeadTo(q, middle, to, end)
    ensures LeadTo(p + q, start, to, end)
    decreases |p|
  {
    if |p| == 1 {
      assert (p + q)[1..] == q;
    } else {
      assert p[1..][|p| - 2] == p[|p| - 1];
      LeadFurther(p[1..], q, p[0].at, mid, middle, to, end);
      assert (p + q)[1..] == p[1..] + q;
    }
  }

  lemma {:induction false} SegmentsOfConcat(a: Point, b: Point, from: real, p: seq<Leg>, q: seq<Leg>, scale: nat)
    requires scale > 0 && p != []
    ensures SegmentsOf(a, b, from, p + q, scale)
            == SegmentsOf(a, b, from, p, scale) + SegmentsOf(a, b, p[|p| - 1].fraction, q, scale)
    decreases |p|
  {
    hide LineSegment, Along;
    if |p| == 1 {
      assert (p + q)[1..] == q && p[1..] == [];
    } else {
      SegmentsOfConcat(a, b, p[0].fraction, p[1..], q, scale);
      assert p[1..][|p| - 2] == p[|p| - 1];
      assert (p + q)[1..] == p[1..] + q;
    }
  }

  lemma MidpointAlong(a: Point, b: Point, f: real, g: real)
    ensures Midpoint(Along(a, b, f), Along(a, b, g)) == Along(a, b, (f + g) / 2.0)
  {
    MidpointPart(a.x, b.x, f, g);
    MidpointPart(a.y, b.y, f, g);
    MidpointPart(a.z, b.z, f, g);
    MidpointPart(a.yaw, b.yaw, f, g);
  }

  lemma MidpointPart(a: real, b: real, f: real, g: real)
    ensures (Part(a, b, f) + Part(a, b, g)) / 2.0 == Part(a, b, (f + g) / 2.0)
  {
  }

  lemma LegAlone(leg: Leg, start: nat)
    requires leg.at == start + leg.duration
    ensures LeadTo([leg], start, leg.fraction, leg.at)
  {
    assert [leg][1..] == [];
  }

  lemma {:induction false} LegsEnd(from: real, to: real, start: nat, duration: nat, k: nat)
    ensures LeadTo(Legs(from, to, start, duration, k), start, to, start + duration)
    decreases duration
  {
    if duration > MAX_DURATION_MSEC {
      hide LeadTo;
      var mid, half := (from + to) / 2.0, duration / 2;
      LegsEnd(from, mid, start, half, k + 1);
      LegsEnd(mid, to, start + half, duration - half, k + 1);
      LeadFurther(Legs(from, mid, start, half, k + 1), Legs(mid, to, start + half, duration - half, k + 1),
                  start, mid, start + half, to, start + duration);
    } else {
      LegAlone(Leg(to, duration, start + duration, k), start);
    }
  }

  lemma {:induction false} LinesFollowLegs(a: Point, b: Point, from: real, to: real, start: nat, duration: nat,
                                           k: nat, scale: nat)
    requires scale > 0
    ensures Lines(Along(a, b, from), Along(a, b, to), duration, scale)
            == SegmentsOf(a, b, from, Legs(from, to, start, duration, k), scale)
    decreases duration
  {
    hide LineSegment, Along, Midpoint;
    if duration > MAX_DURATION_MSEC {
      var mid, half := (from + to) / 2.0, duration / 2;
      LinesFollowLegs(a, b, from, mid, start, half, k + 1, scale);
      LinesFollowLegs(a, b, mid, to, start + half, duration - half, k + 1, scale);
      MidpointAlong(a, b, from, to);
      LegsEnd(from, mid, start, half, k + 1);
      SegmentsOfConcat(a, b, from, Legs(from, mid, start, half, k + 1),
                       Legs(mid, to, start + half, duration - half, k + 1), scale);
    } else {
      OneLeg(a, b, from, Leg(to, duration, start + duration, k), scale);
    }
  }

  lemma OneLeg(a: Point, b: Point, from: real, leg: Leg, scale: nat)
    requires scale > 0
    ensures SegmentsOf(a, b, from, [leg], scale)
            == [LineSegment(Along(a, b, from), Along(a, b, leg.fraction), leg.duration, scale)]
  {
    assert [leg][1..] == [];
    assert SegmentsOf(a, b, leg.fraction, [], scale) == [];
  }

  /** A line is written as legs between points on the line, never late and at most half a
      millisecond early for every halving; a 32-bit duration is halved at most 17 times, so no
      via point is more than 8.5 ms early. The last leg is exactly on time. */
  lemma LineKeepsTime(last: Point, target: Point, duration: nat, scale: nat)
    requires scale > 0 && duration < UINT32_MODULUS
    ensures var legs := Legs(0.0, 1.0, 0, duration, 0);
            Lines(last, target, duration, scale) == SegmentsOf(last, target, 0.0, legs, scale)
            && LeadTo(legs, 0, 1.0, duration)
            && forall i :: 0 <= i < |legs| ==> Punctual(legs[i], duration) && legs[i].halvings <= 17
  {
    hide Legs, Lines, SegmentsOf, LeadTo, Punctual;
    LinesFollowLegs(last, target, 0.0, 1.0, 0, duration, 0, scale);
    WholeLine(last, target);
    LegsEnd(0.0, 1.0, 0, duration, 0);
    OnTime(duration);
    LegsPunctual(0.0, 1.0, 0, duration, 0, duration);
    LegsHalvings(0.0, 1.0, 0, duration, 0, duration);
  }

  lemma WholeLine(a: Point, b: Point)
    ensures Along(a, b, 0.0) == a && Along(a, b, 1.0) == b
  {
  }

  lemma OnTime(duration: nat)
    ensures Early(0.0, 0, duration) == 0.0 && Early(1.0, duration, duration) == 0.0
    ensures (duration - 1) * Pow2(0) == duration - 1
  {
  }
}
