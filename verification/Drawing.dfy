// What a trajectory builder writes, as values: quantised points, straight lines split into
// segments, and the position that playback reaches after every call.
module Drawing {
  import opened Basics
  import opened Parsing
  import opened TrajectoryFormat
  import Bezier

  const MAX_DURATION_MSEC: nat := 60000

  // ---- quantisation ----

  function Trunc(x: real): int { if x >= 0.0 then x.Floor else -((-x).Floor) }

  /** The remainder with the sign of the dividend. */
  function Fmod(x: real, m: real): real
    requires m > 0.0
  {
    x - m * Trunc(x / m) as real
  }

  function Scaled(c: real, scale: nat): int
    requires scale > 0
  {
    (c / scale as real).Floor
  }

  predicate Fits(c: real, scale: nat)
    requires scale > 0
  {
    Int16(Scaled(c, scale))
  }

  /** An angle in tenths of degrees. */
  function Tenths(angle: real): int {
    var scaled := Trunc(Fmod(angle, 360.0) * 10.0);
    if scaled < 0 then scaled + 3600 else scaled
  }

  predicate PointFits(p: Point, scale: nat)
    requires scale > 0
  {
    Fits(p.x, scale) && Fits(p.y, scale) && Fits(p.z, scale)
  }

  /** The point that is played back for a requested point. */
  function Quantised(p: Point, scale: nat): Point
    requires scale > 0
  {
    Point(Decoded(X, scale, Scaled(p.x, scale)), Decoded(Y, scale, Scaled(p.y, scale)),
          Decoded(Z, scale, Scaled(p.z, scale)), Decoded(Yaw, scale, Tenths(p.yaw)))
  }

  lemma ScaledClose(c: real, scale: nat)
    requires scale > 0
    ensures var q := Decoded(X, scale, Scaled(c, scale)); q <= c < q + scale as real
  {
    hide Bezier.Product;
    var s, q := scale as real, c / scale as real;
    ProductOfReals(q.Floor, scale);
    Between(q.Floor as real, q, s);
    Divided(c, s);
  }

  lemma Divided(c: real, s: real)
    requires s != 0.0
    ensures Bezier.Product(c / s, s) == c
  {
  }

  lemma ProductOfReals(k: int, n: int)
    ensures (k * n) as real == Bezier.Product(k as real, n as real)
  {
  }

  lemma Between(f: real, q: real, s: real)
    requires s > 0.0 && f <= q < f + 1.0
    ensures Bezier.Product(f, s) <= Bezier.Product(q, s) < Bezier.Product(f, s) + s
  {
    hide Bezier.Product;
    Difference(q, f, s);
    Difference(f + 1.0, q, s);
    Successor(f, s);
  }

  lemma Difference(a: real, b: real, s: real)
    requires s > 0.0 && a >= b
    ensures Bezier.Product(a, s) >= Bezier.Product(b, s)
    ensures a > b ==> Bezier.Product(a, s) > Bezier.Product(b, s)
  {
    Bezier.NonNegative(a - b, s);
    if a > b { PositiveProduct(a - b, s); }
    assert (a - b) * s == a * s - b * s;
  }

  lemma Successor(f: real, s: real)
    ensures Bezier.Product(f + 1.0, s) == Bezier.Product(f, s) + s
  {
  }

  lemma PositiveProduct(a: real, b: real)
    requires a > 0.0 && b > 0.0
    ensures a * b > 0.0
  {
  }

  lemma FmodRange(x: real)
    ensures x >= 0.0 ==> 0.0 <= Fmod(x, 360.0) < 360.0
    ensures x < 0.0 ==> -360.0 < Fmod(x, 360.0) <= 0.0
  {
  }

  lemma TenthsRange(angle: real)
    ensures 0 <= Tenths(angle) < 3600
    ensures var f := Fmod(angle, 360.0);
            -0.1 < Decoded(Yaw, 1, Tenths(angle)) - f < 0.1
            || -0.1 < Decoded(Yaw, 1, Tenths(angle)) - f - 360.0 < 0.1
  {
    hide Fmod;
    FmodRange(angle);
  }

  ghost predicate SameAngle(a: real, b: real, turns: int, tolerance: real) {
    -tolerance < a - b - 360.0 * turns as real < tolerance
  }

  /** The playback error: less than one unit of the scale, downwards, on the coordinates;
      less than a tenth of a degree, modulo whole turns, on the yaw. */
  lemma QuantisedClose(p: Point, scale: nat) returns (turns: int)
    requires scale > 0
    ensures var q := Quantised(p, scale);
            q.x <= p.x < q.x + scale as real && q.y <= p.y < q.y + scale as real
            && q.z <= p.z < q.z + scale as real
            && SameAngle(q.yaw, p.yaw, turns, 0.1)
  {
    ScaledClose(p.x, scale);
    ScaledClose(p.y, scale);
    ScaledClose(p.z, scale);
    TenthsRange(p.yaw);
    var q, f := Quantised(p, scale), Fmod(p.yaw, 360.0);
    turns := if -0.1 < q.yaw - f < 0.1 then -Trunc(p.yaw / 360.0) else 1 - Trunc(p.yaw / 360.0);
  }

  // ---- lines ----

  function Changed(before: real, after: real, raw: int): seq<int> {
    if before != after then [raw] else []
  }

  function LineSegment(last: Point, target: Point, duration: nat, scale: nat): Segment
    requires scale > 0
  {
    Segment(duration,
            Changed(last.x, target.x, Scaled(target.x, scale)),
            Changed(last.y, target.y, Scaled(target.y, scale)),
            Changed(last.z, target.z, Scaled(target.z, scale)),
            Changed(last.yaw, target.yaw, Tenths(target.yaw)))
  }

  /** The coordinates that have to be written can be. */
  predicate SegmentWritable(last: Point, target: Point, scale: nat)
    requires scale > 0
  {
    (last.x != target.x ==> Fits(target.x, scale))
    && (last.y != target.y ==> Fits(target.y, scale))
    && (last.z != target.z ==> Fits(target.z, scale))
  }

  function Midpoint(a: Point, b: Point): Point {
    Point((a.x + b.x) / 2.0, (a.y + b.y) / 2.0, (a.z + b.z) / 2.0, (a.yaw + b.yaw) / 2.0)
  }

  /** The segments of a line: one that lasts too long is halved. */
  function Lines(last: Point, target: Point, duration: nat, scale: nat): (segs: seq<Segment>)
    requires scale > 0
    ensures |segs| >= 1
    decreases duration
  {
    if duration > MAX_DURATION_MSEC then
      var midpoint, half := Midpoint(last, target), duration / 2;
      Lines(last, midpoint, half, scale) + Lines(midpoint, target, duration - half, scale)
    else [LineSegment(last, target, duration, scale)]
  }

  predicate Writable(last: Point, target: Point, duration: nat, scale: nat)
    requires scale > 0
    decreases duration
  {
    if duration > MAX_DURATION_MSEC then
      var midpoint, half := Midpoint(last, target), duration / 2;
      Writable(last, midpoint, half, scale) && Writable(midpoint, target, duration - half, scale)
    else SegmentWritable(last, target, scale)
  }

  /** The segments of a hold: as many of the longest kind as fit, and the rest. */
  function Holds(duration: nat): (segs: seq<Segment>)
    decreases duration
  {
    if duration == 0 then []
    else
      var d := if duration > MAX_DURATION_MSEC then MAX_DURATION_MSEC else duration;
      [Segment(d, [], [], [], [])] + Holds(duration - d)
  }

  lemma LineStorable(last: Point, target: Point, duration: nat, scale: nat)
    requires scale > 0 && duration <= MAX_DURATION_MSEC
    ensures SegmentWritable(last, target, scale) <==> StorableSegment(LineSegment(last, target, duration, scale))
  {
    hide Scaled, Tenths, Changed;
    TenthsRange(target.yaw);
    ChangedStorable(last.x, target.x, Scaled(target.x, scale));
    ChangedStorable(last.y, target.y, Scaled(target.y, scale));
    ChangedStorable(last.z, target.z, Scaled(target.z, scale));
    ChangedStorable(last.yaw, target.yaw, Tenths(target.yaw));
  }

  lemma ChangedStorable(before: real, after: real, raw: int)
    ensures Storable(Changed(before, after, raw)) <==> (before != after ==> Int16(raw))
  {
    if before != after { assert Changed(before, after, raw)[0] == raw; }
  }

  /** A line is written completely or refused: every segment can be stored iff it is writable. */
  lemma {:induction false} LinesStorable(last: Point, target: Point, duration: nat, scale: nat)
    requires scale > 0
    ensures Writable(last, target, duration, scale) <==> AllStorable(Lines(last, target, duration, scale))
    decreases duration
  {
    hide StorableSegment, SegmentWritable, LineSegment;
    if duration > MAX_DURATION_MSEC {
      var m, half := Midpoint(last, target), duration / 2;
      LinesStorable(last, m, half, scale);
      LinesStorable(m, target, duration - half, scale);
      StorableConcat(Lines(last, m, half, scale), Lines(m, target, duration - half, scale));
    } else {
      LineStorable(last, target, duration, scale);
      assert Lines(last, target, duration, scale)[0] == LineSegment(last, target, duration, scale);
    }
  }

  lemma StorableConcat(a: seq<Segment>, b: seq<Segment>)
    ensures AllStorable(a + b) <==> AllStorable(a) && AllStorable(b)
  {
    hide StorableSegment;
    if AllStorable(a + b) {
      forall i | 0 <= i < |a| ensures StorableSegment(a[i]) { assert (a + b)[i] == a[i]; }
      forall i | 0 <= i < |b| ensures StorableSegment(b[i]) { assert (a + b)[|a| + i] == b[i]; }
    }
  }

  lemma {:induction false} HoldsStorable(duration: nat)
    ensures AllStorable(Holds(duration))
    decreases duration
  {
    if duration > 0 {
      var d := if duration > MAX_DURATION_MSEC then MAX_DURATION_MSEC else duration;
      HoldsStorable(duration - d);
    }
  }

  // ---- positions ----

  lemma AfterLineSegment(last: Point, target: Point, duration: nat, scale: nat)
    requires scale > 0
    ensures AfterSegment(scale, Quantised(last, scale), LineSegment(last, target, duration, scale))
            == Quantised(target, scale)
  {
    hide Scaled, Tenths, Decoded;
  }

  /** No error accumulates: whatever was omitted because it did not change, playback goes from
      one quantised point exactly to the next. */
  lemma {:induction false} AfterLines(last: Point, target: Point, duration: nat, scale: nat)
    requires scale > 0
    ensures After(scale, Quantised(last, scale), Lines(last, target, duration, scale))
            == Quantised(target, scale)
    decreases duration
  {
    hide AfterSegment, Quantised, LineSegment;
    if duration > MAX_DURATION_MSEC {
      var m, half := Midpoint(last, target), duration / 2;
      AfterLines(last, m, half, scale);
      AfterLines(m, target, duration - half, scale);
      AfterConcat(scale, Quantised(last, scale), Lines(last, m, half, scale),
                  Lines(m, target, duration - half, scale));
    } else {
      AfterLineSegment(last, target, duration, scale);
    }
  }

  lemma {:induction false} AfterHolds(scale: nat, p: Point, duration: nat)
    ensures After(scale, p, Holds(duration)) == p
    decreases duration
  {
    if duration > 0 {
      var d := if duration > MAX_DURATION_MSEC then MAX_DURATION_MSEC else duration;
      AfterHolds(scale, p, duration - d);
    }
  }

  // ---- durations ----

  /** Every segment takes between so many milliseconds. */
  predicate AllBetween(segs: seq<Segment>, least: nat, most: nat) {
    forall i :: 0 <= i < |segs| ==> least <= segs[i].duration <= most
  }

  lemma BetweenConcat(a: seq<Segment>, b: seq<Segment>, least: nat, most: nat)
    requires AllBetween(a, least, most) && AllBetween(b, least, most)
    ensures AllBetween(a + b, least, most)
  {
  }

  /** Halving loses no time, and it makes segments of 30 to 60 seconds. */
  lemma {:induction false} LineDurations(last: Point, target: Point, duration: nat, scale: nat)
    requires scale > 0
    ensures Sum(Durations(Lines(last, target, duration, scale))) == duration
    ensures AllBetween(Lines(last, target, duration, scale), if duration >= 30000 then 30000 else 0, 60000)
    decreases duration
  {
    hide LineSegment, Midpoint;
    if duration > MAX_DURATION_MSEC {
      var m, half := Midpoint(last, target), duration / 2;
      var a, b := Lines(last, m, half, scale), Lines(m, target, duration - half, scale);
      LineDurations(last, m, half, scale);
      LineDurations(m, target, duration - half, scale);
      assert Lines(last, target, duration, scale) == a + b;
      hide Lines, AllBetween, Sum, Durations;
      DurationsConcat(a, b);
      SumConcat(Durations(a), Durations(b));
      BetweenConcat(a, b, 30000, MAX_DURATION_MSEC);
    } else {
      OneDuration(LineSegment(last, target, duration, scale));
      LineDuration(last, target, duration, scale);
    }
  }

  lemma LineDuration(last: Point, target: Point, duration: nat, scale: nat)
    requires scale > 0
    ensures LineSegment(last, target, duration, scale).duration == duration
  {
  }

  lemma OneDuration(s: Segment)
    ensures Sum(Durations([s])) == s.duration
  {
    assert Durations([s])[1..] == [];
  }

  /** A hold of d ms makes exactly ceil(d / 60000) segments of three bytes each, and they last
      d ms together. */
  lemma {:induction false} HoldCost(duration: nat)
    ensures |Holds(duration)| == (duration + 59999) / 60000
    ensures AllStorable(Holds(duration)) && |EncodeAll(Holds(duration))| == 3 * |Holds(duration)|
    ensures Sum(Durations(Holds(duration))) == duration
    decreases duration
  {
    hide StorableSegment;
    HoldsStorable(duration);
    if duration > 0 {
      var d := if duration > MAX_DURATION_MSEC then MAX_DURATION_MSEC else duration;
      HoldCost(duration - d);
      var h, rest := [Segment(d, [], [], [], [])], Holds(duration - d);
      HoldBytes(d);
      EncodeConcat(h, rest);
      DurationsConcat(h, rest);
      SumConcat(Durations(h), Durations(rest));
      OneDuration(h[0]);
    }
  }

  lemma HoldBytes(d: nat)
    requires d <= MAX_DURATION_MSEC
    ensures AllStorable([Segment(d, [], [], [], [])]) && |EncodeAll([Segment(d, [], [], [], [])])| == 3
  {
    var s := Segment(d, [], [], [], []);
    assert StorableSegment(s);
    assert [s][1..] == [];
  }
}
