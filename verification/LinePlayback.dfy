// How close the playback of a line is to the line that was asked for, however often it was cut.
module LinePlayback {
  import opened Basics
  import opened TrajectoryFormat
  import opened Drawing
  import opened LineSplitting
  import opened BuilderRuns
  import opened Timeline
  import opened TrajectoryMotion
  import opened TrajectoryHistory
  import opened RoundTrip
  import Bezier
  import Varint

  // ---- the segments of the legs ----

  /** When leg i starts, and at what fraction of the way. */
  function TimeAt(legs: seq<Leg>, start: nat, i: nat): nat
    requires i <= |legs|
  {
    if i == 0 then start else legs[i - 1].at
  }

  function FractionAt(legs: seq<Leg>, from: real, i: nat): real
    requires i <= |legs|
  {
    if i == 0 then from else legs[i - 1].fraction
  }

  lemma {:induction false} LegTimes(a: Point, b: Point, from: real, legs: seq<Leg>, start: nat, scale: nat, i: nat)
    requires scale > 0 && Chained(legs, start) && i <= |legs|
    ensures var segs := SegmentsOf(a, b, from, legs, scale);
            && |segs| == |legs| && TimeAt(legs, start, i) == start + Sum(Durations(segs[..i]))
            && (i < |legs| ==> segs[i].duration == legs[i].duration
                               && legs[i].at == TimeAt(legs, start, i) + legs[i].duration)
    decreases |legs|
  {
    hide LineSegment, Along;
    var segs := SegmentsOf(a, b, from, legs, scale);
    if legs != [] {
      LegDuration(a, b, from, legs, scale);
      LegTimes(a, b, legs[0].fraction, legs[1..], legs[0].at, scale, if i == 0 then 0 else i - 1);
      if i > 0 {
        assert segs[..i] == [segs[0]] + segs[1..][..i - 1];
        DurationsConcat([segs[0]], segs[1..][..i - 1]);
        SumConcat(Durations([segs[0]]), Durations(segs[1..][..i - 1]));
        OneDuration(segs[0]);
      }
    }
    if i == 0 { assert segs[..0] == []; }
  }

  lemma LegDuration(a: Point, b: Point, from: real, legs: seq<Leg>, scale: nat)
    requires scale > 0 && legs != []
    ensures var segs := SegmentsOf(a, b, from, legs, scale);
            && segs != []
            && segs[0] == LineSegment(Along(a, b, from), Along(a, b, legs[0].fraction), legs[0].duration, scale)
            && segs[0].duration == legs[0].duration && segs[1..] == SegmentsOf(a, b, legs[0].fraction, legs[1..], scale)
  {
    hide Along;
  }

  /** Playback reaches the quantised via points. */
  lemma {:induction false} LegPoints(a: Point, b: Point, from: real, legs: seq<Leg>, start: nat, scale: nat, i: nat)
    requires scale > 0 && i <= |legs|
    ensures var segs := SegmentsOf(a, b, from, legs, scale);
            |segs| == |legs|
            && After(scale, Quantised(Along(a, b, from), scale), segs[..i])
               == Quantised(Along(a, b, FractionAt(legs, from, i)), scale)
    decreases |legs|
  {
    hide LineSegment, Along, Quantised, AfterSegment;
    var segs := SegmentsOf(a, b, from, legs, scale);
    if legs != [] {
      LegDuration(a, b, from, legs, scale);
      LegPoints(a, b, legs[0].fraction, legs[1..], start, scale, if i == 0 then 0 else i - 1);
      AfterLineSegment(Along(a, b, from), Along(a, b, legs[0].fraction), legs[0].duration, scale);
      if i > 0 {
        assert segs[..i][1..] == segs[1..][..i - 1] && segs[..i][0] == segs[0];
      }
    }
    if i == 0 { assert segs[..0] == []; }
  }

  // ---- the legs in a run ----

  /** Leg i of line call j is segment number m + i of the trajectory: it starts when the calls and
      the legs before it are over, and leads from one quantised via point to the next. */
  lemma LegInRun(scale: nat, useYaw: bool, calls: seq<Call>, a: Axis, j: nat, i: nat)
    requires 0 < scale <= 127 && Run(New(scale, useYaw), calls).Some?
    requires j < |calls| && calls[j].Line? && calls[j].duration < UINT32_MODULUS
    requires i < |Legs(0.0, 1.0, 0, calls[j].duration, 0)|
    ensures Run(New(scale, useYaw), calls[..j]).Some?
    ensures var now, m := Run(New(scale, useYaw), calls).value, |Run(New(scale, useYaw), calls[..j]).value.segs| + i;
            var legs, last := Legs(0.0, 1.0, 0, calls[j].duration, 0), LastOf(ORIGIN, calls[..j]);
            && |now.start| == 4 && m < |now.segs| && now.segs[m].duration == legs[i].duration
            && Sum(Durations(now.segs[..m])) == RunTime(calls[..j]) + TimeAt(legs, 0, i)
            && legs[i].at == TimeAt(legs, 0, i) + legs[i].duration
            && Before(a, scale, StartPoint(scale, now.start).On(a), now.segs, m)
               == Quantised(Along(last, calls[j].target, FractionAt(legs, 0.0, i)), scale).On(a)
            && Before(a, scale, StartPoint(scale, now.start).On(a), now.segs, m + 1)
               == Quantised(Along(last, calls[j].target, legs[i].fraction), scale).On(a)
  {
    hide Run, Quantised, After, Before, Sum, Bytes, ReadAll, LastOf, Legs, Lines, Along, SegmentsOf, Punctual,
      Durations;
    var s := New(scale, useYaw);
    RunSplit(s, calls, j);
    RunSplit(s, calls, j + 1);
    assert calls[..j] + [calls[j]] == calls[..j + 1];
    RunSnoc(s, calls[..j], calls[j]);
    var early, later, now := Run(s, calls[..j]).value, Run(s, calls[..j + 1]).value, Run(s, calls).value;
    NewFaithful(scale, useYaw);
    SameScale(s, calls[..j]);
    RunLast(s, calls[..j]);
    PlaybackOfRun(scale, useYaw, calls, j);
    PlaybackOfRun(scale, useYaw, calls, j + 1);
    var legs := Legs(0.0, 1.0, 0, calls[j].duration, 0);
    LineKeepsTime(early.last, calls[j].target, calls[j].duration, scale);
    var line := SegmentsOf(early.last, calls[j].target, 0.0, legs, scale);
    LineWritten(early, calls[j], line);
    LineSplitting.WholeLine(early.last, calls[j].target);
    assert now.segs[..|early.segs|] == early.segs;
    TimeOfRun(scale, early.segs, now.segs, early.last, calls[j].target, legs, i);
    PointOfRun(scale, early.segs, now.segs, StartPoint(scale, now.start), early.last, calls[j].target, legs, i, a);
    PointOfRun(scale, early.segs, now.segs, StartPoint(scale, now.start), early.last, calls[j].target, legs, i + 1, a);
  }

  lemma LineWritten(s: Sketch, call: Call, line: seq<Segment>)
    requires s.scale > 0 && call.Line? && Apply(s, call).Some?
    requires Lines(s.last, call.target, call.duration, s.scale) == line
    ensures Apply(s, call).value.segs == s.segs + line
  {
    hide Writable, Lines;
  }

  lemma TimeOfRun(scale: nat, early: seq<Segment>, now: seq<Segment>, last: Point, target: Point,
                  legs: seq<Leg>, i: nat)
    requires scale > 0 && i <= |legs| && Chained(legs, 0)
    requires early + SegmentsOf(last, target, 0.0, legs, scale) <= now
    ensures var m := |early| + i;
            && m <= |now| && (i < |legs| ==> m < |now| && now[m].duration == legs[i].duration
                                             && legs[i].at == TimeAt(legs, 0, i) + legs[i].duration)
            && Sum(Durations(now[..m])) == Sum(Durations(early)) + TimeAt(legs, 0, i)
  {
    hide Sum, SegmentsOf, Along, Durations, Chained, TimeAt;
    var line := SegmentsOf(last, target, 0.0, legs, scale);
    LegTimes(last, target, 0.0, legs, 0, scale, i);
    OfRun(scale, early, now, last, line, i, X);
  }

  lemma PointOfRun(scale: nat, early: seq<Segment>, now: seq<Segment>, p: Point, last: Point, target: Point,
                   legs: seq<Leg>, i: nat, a: Axis)
    requires scale > 0 && i <= |legs| && Along(last, target, 0.0) == last
    requires early + SegmentsOf(last, target, 0.0, legs, scale) <= now
    requires After(scale, p, early) == Quantised(last, scale)
    ensures |early| + i <= |now|
    ensures Before(a, scale, p.On(a), now, |early| + i)
            == Quantised(Along(last, target, FractionAt(legs, 0.0, i)), scale).On(a)
  {
    hide Quantised, After, Before, SegmentsOf, Along, FractionAt, Sum, Durations, Point.On;
    var line := SegmentsOf(last, target, 0.0, legs, scale);
    LegPoints(last, target, 0.0, legs, 0, scale, i);
    OfRun(scale, early, now, p, line, i, a);
  }

  lemma OfRun(scale: nat, early: seq<Segment>, now: seq<Segment>, p: Point, line: seq<Segment>, i: nat, a: Axis)
    requires i <= |line| && early + line <= now
    ensures var m := |early| + i;
            && m <= |now| && (i < |line| ==> m < |now| && now[m] == line[i])
            && Sum(Durations(now[..m])) == Sum(Durations(early)) + Sum(Durations(line[..i]))
            && Before(a, scale, p.On(a), now, m) == After(scale, After(scale, p, early), line[..i]).On(a)
  {
    hide After, Before, Sum, Durations;
    Prefix(early, line, now, i);
    Together(scale, p, early, line[..i]);
    BeforeIsAfter(scale, p, now, |early| + i, a);
  }

  lemma Prefix(early: seq<Segment>, line: seq<Segment>, now: seq<Segment>, i: nat)
    requires early + line <= now && i <= |line|
    ensures now[..|early| + i] == early + line[..i] && (i < |line| ==> now[|early| + i] == line[i])
  {
  }

  lemma Together(scale: nat, p: Point, early: seq<Segment>, part: seq<Segment>)
    ensures Sum(Durations(early + part)) == Sum(Durations(early)) + Sum(Durations(part))
    ensures After(scale, p, early + part) == After(scale, After(scale, p, early), part)
  {
    hide Sum, Durations, After;
    DurationsConcat(early, part);
    SumConcat(Durations(early), Durations(part));
    AfterConcat(scale, p, early, part);
  }

  // ---- the playback of a line ----

  lemma {:induction false} LegsTakeTime(from: real, to: real, start: nat, duration: nat, k: nat)
    requires duration > 0 && from <= to
    ensures forall i :: 0 <= i < |Legs(from, to, start, duration, k)| ==>
              Legs(from, to, start, duration, k)[i].duration > 0
              && from <= Legs(from, to, start, duration, k)[i].fraction <= to
    decreases duration
  {
    if duration > MAX_DURATION_MSEC {
      var mid, half := (from + to) / 2.0, duration / 2;
      LegsTakeTime(from, mid, start, half, k + 1);
      LegsTakeTime(mid, to, start + half, duration - half, k + 1);
    }
  }

  /** The leg at a time. */
  lemma {:induction false} LegAt(legs: seq<Leg>, start: nat, time: real) returns (i: nat)
    requires legs != [] && Chained(legs, start) && start as real <= time <= legs[|legs| - 1].at as real
    ensures i < |legs| && TimeAt(legs, start, i) as real <= time <= legs[i].at as real
    decreases |legs|
  {
    if time <= legs[0].at as real {
      i := 0;
    } else {
      assert legs[1..] != [] && legs[1..][|legs| - 2] == legs[|legs| - 1];
      i := LegAt(legs[1..], legs[0].at, time);
      i := i + 1;
      assert legs[1..][i - 1] == legs[i];
    }
  }

  /** Within leg i playback goes evenly from one quantised via point to the next. */
  lemma LegPlaysStraight(scale: nat, useYaw: bool, calls: seq<Call>, a: Axis, j: nat, i: nat, u: real, k: nat)
    requires 0 < scale <= 127 && Run(New(scale, useYaw), calls).Some? && NoInstantLines(scale, calls, a)
    requires j < |calls| && calls[j].Line? && 0 < calls[j].duration < UINT32_MODULUS && 0.0 <= u <= 1.0
    requires i < |Legs(0.0, 1.0, 0, calls[j].duration, 0)| && k <= |Run(New(scale, useYaw), calls).value.segs|
    ensures var now, legs := Run(New(scale, useYaw), calls).value, Legs(0.0, 1.0, 0, calls[j].duration, 0);
            var last, t := LastOf(ORIGIN, calls[..j]),
                           Moment(RunTime(calls[..j]) + TimeAt(legs, 0, i), u, legs[i].duration);
            |now.start| == 4
            && FromPiece(a, scale, StartPoint(scale, now.start).On(a), now.segs, Land(Durations(now.segs), k, t), t)
               == Bezier.Lerp(Quantised(Along(last, calls[j].target, FractionAt(legs, 0.0, i)), scale).On(a),
                              Quantised(Along(last, calls[j].target, legs[i].fraction), scale).On(a), u)
  {
    hide Run, Quantised, Before, Sum, LastOf, StartPoint, FromPiece, Land, NoInstantMoves, NoInstantLines,
      JointsMeet, Linear, Points, Legs, Moment, Bezier.Lerp, TimeAt, FractionAt, Along, Point.On;
    LegInRun(scale, useYaw, calls, a, j, i);
    LegsTakeTime(0.0, 1.0, 0, calls[j].duration, 0);
    InstantLinesMove(scale, useYaw, calls, a);
    var now, legs := Run(New(scale, useYaw), calls).value, Legs(0.0, 1.0, 0, calls[j].duration, 0);
    var m := |Run(New(scale, useYaw), calls[..j]).value.segs| + i;
    var p := StartPoint(scale, now.start).On(a);
    NothingWritten();
    RunWritesLines(New(scale, useYaw), calls);
    LinesAreLinear(a, now.segs);
    LinearMeetIff(a, scale, p, now.segs);
    var last := LastOf(ORIGIN, calls[..j]);
    Inside(a, scale, p, now.segs, m, u, k, RunTime(calls[..j]) + TimeAt(legs, 0, i), legs[i].duration,
           Quantised(Along(last, calls[j].target, FractionAt(legs, 0.0, i)), scale).On(a),
           Quantised(Along(last, calls[j].target, legs[i].fraction), scale).On(a));
  }

  lemma OnThatLine(scale: nat, useYaw: bool, calls: seq<Call>, a: Axis, j: nat, time: real, k: nat)
    returns (f: real)
    requires 0 < scale <= 127 && Run(New(scale, useYaw), calls).Some? && NoInstantLines(scale, calls, a)
    requires j < |calls| && calls[j].Line? && 0 < calls[j].duration < UINT32_MODULUS && a != Yaw
    requires 0.0 <= time <= calls[j].duration as real && k <= |Run(New(scale, useYaw), calls).value.segs|
    ensures 0.0 <= f <= 1.0 && time <= f * calls[j].duration as real <= time + 8.5
    ensures var now, t := Run(New(scale, useYaw), calls).value,
                          Finite((RunTime(calls[..j]) as real + time) / 1000.0);
            var from, to := LastOf(ORIGIN, calls[..j]).On(a), calls[j].target.On(a);
            |now.start| == 4
            && var shown := FromPiece(a, scale, StartPoint(scale, now.start).On(a), now.segs,
                                      Land(Durations(now.segs), k, t), t);
               shown <= Part(from, to, f) < shown + scale as real
  {
    hide Run, Quantised, LastOf, StartPoint, FromPiece, Land, NoInstantLines, Legs, Bezier.Lerp, Early, Moment, Along,
      Point.On, Part, TimeAt, FractionAt, RunTime, Durations;
    var d, last, target := calls[j].duration, LastOf(ORIGIN, calls[..j]), calls[j].target;
    var i := LegOnTime(d, time);
    var leg := Legs(0.0, 1.0, 0, d, 0)[i];
    var start, fraction := TimeAt(Legs(0.0, 1.0, 0, d, 0), 0, i), FractionAt(Legs(0.0, 1.0, 0, d, 0), 0.0, i);
    var u := (time - start as real) / leg.duration as real;
    MomentOf(RunTime(calls[..j]), start, leg.duration, time);
    LegPlaysStraight(scale, useYaw, calls, a, j, i, u, k);
    f := Bezier.Lerp(fraction, leg.fraction, u);
    MeanBetween(fraction, leg.fraction, u, 0.0, 1.0);
    EarlyBetween(fraction, leg.fraction, start, leg.duration, d, time);
    OnLine(last, target, fraction, leg.fraction, u, a, scale);
    ghost var now := Run(New(scale, useYaw), calls).value;
    ghost var t := Finite((RunTime(calls[..j]) as real + time) / 1000.0);
    assert t == Moment(RunTime(calls[..j]) + start, u, leg.duration);
    assert FromPiece(a, scale, StartPoint(scale, now.start).On(a), now.segs, Land(Durations(now.segs), k, t), t)
           == Bezier.Lerp(Quantised(Along(last, target, fraction), scale).On(a),
                          Quantised(Along(last, target, leg.fraction), scale).On(a), u);
  }

  /** A line of any duration, asked for at any time: what is shown is, up to quantisation, a point on
      the line that was asked for. It is never behind a steady motion, and at most 8.5 ms ahead. */
  lemma LinePlaysClose(scale: nat, useYaw: bool, calls: seq<Call>, a: Axis, j: nat, time: real, k: nat)
    returns (f: real)
    requires 0 < scale <= 127 && Run(New(scale, useYaw), calls).Some? && NoInstantLines(scale, calls, a)
    requires j < |calls| && calls[j].Line? && 0 < calls[j].duration < UINT32_MODULUS && a != Yaw
    requires 0.0 <= time <= calls[j].duration as real && k <= |Run(New(scale, useYaw), calls).value.segs|
    ensures 0.0 <= f <= 1.0 && time <= f * calls[j].duration as real <= time + 8.5
    ensures var now, t := Run(New(scale, useYaw), calls).value,
                          Finite((RunTime(calls[..j]) as real + time) / 1000.0);
            var from, to := LastOf(ORIGIN, calls[..j]).On(a), calls[j].target.On(a);
            |now.start| == 4
            && var shown := FromPiece(a, scale, StartPoint(scale, now.start).On(a), now.segs,
                                      Land(Durations(now.segs), k, t), t);
               shown <= from + f * (to - from) < shown + scale as real
  {
    hide Run, Quantised, LastOf, StartPoint, FromPiece, Land, NoInstantLines, RunTime, Durations, Point.On;
    f := OnThatLine(scale, useYaw, calls, a, j, time, k);
    PartIs(LastOf(ORIGIN, calls[..j]).On(a), calls[j].target.On(a), f);
    hide Part;
  }

  lemma PartIs(a: real, b: real, f: real)
    ensures Part(a, b, f) == a + f * (b - a)
  {
  }

  /** The leg at a time: it takes time, and both its ends are early by at most 8.5 ms. */
  lemma LegOnTime(d: nat, time: real) returns (i: nat)
    requires 0 < d < UINT32_MODULUS && 0.0 <= time <= d as real
    ensures var legs := Legs(0.0, 1.0, 0, d, 0);
            && i < |legs| && legs[i].duration > 0 && legs[i].at == TimeAt(legs, 0, i) + legs[i].duration
            && TimeAt(legs, 0, i) as real <= time <= legs[i].at as real
            && 0.0 <= Early(FractionAt(legs, 0.0, i), TimeAt(legs, 0, i), d) <= 8.5
            && 0.0 <= Early(legs[i].fraction, legs[i].at, d) <= 8.5
            && 0.0 <= FractionAt(legs, 0.0, i) <= 1.0 && 0.0 <= legs[i].fraction <= 1.0
  {
    hide Legs, Lines, SegmentsOf, Early, Punctual, Sum, Durations;
    var legs := Legs(0.0, 1.0, 0, d, 0);
    LineKeepsTime(ORIGIN, ORIGIN, d, 1);
    i := LegAt(legs, 0, time);
    LegTimes(ORIGIN, ORIGIN, 0.0, legs, 0, 1, i);
    LegsTakeTime(0.0, 1.0, 0, d, 0);
    StartEarly(legs, d, i);
  }

  /** The moment so much after some calls, as one within a leg. */
  lemma MomentOf(before: nat, start: nat, duration: nat, time: real)
    requires duration > 0 && start as real <= time <= (start + duration) as real
    ensures var u := (time - start as real) / duration as real;
            0.0 <= u <= 1.0 && Moment(before + start, u, duration) == Finite((before as real + time) / 1000.0)
  {
    UnitQuotient(time - start as real, duration as real);
  }

  lemma StartEarly(legs: seq<Leg>, total: nat, i: nat)
    requires i < |legs|
    requires forall i :: 0 <= i < |legs| ==> Punctual(legs[i], total) && legs[i].halvings <= 17
    ensures 0.0 <= Early(FractionAt(legs, 0.0, i), TimeAt(legs, 0, i), total) <= 8.5
    ensures 0.0 <= Early(legs[i].fraction, legs[i].at, total) <= 8.5
  {
    assert Punctual(legs[i], total);
    if i > 0 { assert Punctual(legs[i - 1], total); }
  }

  /** Between two places that are early by so much it is early by so much. */
  lemma EarlyBetween(f: real, g: real, start: nat, duration: nat, total: nat, time: real)
    requires duration > 0 && start as real <= time <= (start + duration) as real
    requires 0.0 <= Early(f, start, total) <= 8.5 && 0.0 <= Early(g, start + duration, total) <= 8.5
    ensures var u := (time - start as real) / duration as real;
            time <= Bezier.Lerp(f, g, u) * total as real <= time + 8.5
  {
    var u, e, e', d := (time - start as real) / duration as real, Early(f, start, total),
                       Early(g, start + duration, total), total as real;
    UnitQuotient(time - start as real, duration as real);
    Mean(f, g, u, d);
    MeanLater(e, e', u, start as real, duration as real);
    MeanBetween(e, e', u, 0.0, 8.5);
    EarlyIs(f, start, total);
    EarlyIs(g, start + duration, total);
    hide Early, Bezier.Lerp;
  }

  lemma EarlyIs(f: real, at: nat, total: nat)
    ensures f * total as real == Early(f, at, total) + at as real
  {
  }

  lemma UnitQuotient(v: real, d: real)
    requires d > 0.0 && 0.0 <= v <= d
    ensures 0.0 <= v / d <= 1.0 && v / d * d == v
  {
  }

  lemma MeanLater(e: real, e': real, u: real, start: real, d: real)
    ensures Bezier.Lerp(e + start, e' + start + d, u) == Bezier.Lerp(e, e', u) + start + u * d
  {
  }

  lemma Mean(f: real, g: real, u: real, d: real)
    ensures Bezier.Lerp(f, g, u) * d == Bezier.Lerp(f * d, g * d, u)
  {
  }

  lemma MeanBetween(x: real, y: real, u: real, low: real, high: real)
    requires 0.0 <= u <= 1.0 && low <= x <= high && low <= y <= high
    ensures low <= Bezier.Lerp(x, y, u) <= high
    ensures x < high && y < high ==> Bezier.Lerp(x, y, u) < high
  {
    NotNegative(1.0 - u, x - low);
    NotNegative(u, y - low);
    NotNegative(1.0 - u, high - x);
    NotNegative(u, high - y);
    assert Bezier.Lerp(x, y, u) - low == (1.0 - u) * (x - low) + u * (y - low);
    assert high - Bezier.Lerp(x, y, u) == (1.0 - u) * (high - x) + u * (high - y);
  }

  lemma NotNegative(a: real, b: real)
    requires a >= 0.0 && b >= 0.0
    ensures a * b >= 0.0 && (a > 0.0 && b > 0.0 ==> a * b > 0.0)
  {
  }

  /** Between two quantised points of a line, quantisation costs less than one unit of the scale. */
  lemma OnLine(last: Point, target: Point, f: real, g: real, u: real, a: Axis, scale: nat)
    requires scale > 0 && 0.0 <= u <= 1.0 && a != Yaw
    ensures var shown := Bezier.Lerp(Quantised(Along(last, target, f), scale).On(a),
                                     Quantised(Along(last, target, g), scale).On(a), u);
            shown <= Part(last.On(a), target.On(a), Bezier.Lerp(f, g, u)) < shown + scale as real
  {
    hide Quantised;
    var from, to := last.On(a), target.On(a);
    var p, q := Along(last, target, f).On(a), Along(last, target, g).On(a);
    AlongOn(last, target, f, a);
    AlongOn(last, target, g, a);
    hide Along, Point.On, Bezier.Lerp, Part;
    CoordinateClose(Along(last, target, f), a, scale);
    CoordinateClose(Along(last, target, g), a, scale);
    var x, y := Quantised(Along(last, target, f), scale).On(a), Quantised(Along(last, target, g), scale).On(a);
    MeanBetween(p - x, q - y, u, 0.0, scale as real);
    PartOfMean(from, to, f, g, u);
    MeanOfDifference(p, q, x, y, u);
  }

  lemma AlongOn(last: Point, target: Point, f: real, a: Axis)
    ensures Along(last, target, f).On(a) == Part(last.On(a), target.On(a), f)
  {
  }

  lemma MeanOfDifference(p: real, q: real, x: real, y: real, u: real)
    ensures Bezier.Lerp(p - x, q - y, u) == Bezier.Lerp(p, q, u) - Bezier.Lerp(x, y, u)
  {
  }

  lemma CoordinateClose(p: Point, a: Axis, scale: nat)
    requires scale > 0 && a != Yaw
    ensures 0.0 <= p.On(a) - Quantised(p, scale).On(a) < scale as real
  {
    hide Quantised;
    var _ := QuantisedClose(p, scale);
  }

  lemma PartOfMean(from: real, to: real, f: real, g: real, u: real)
    ensures Bezier.Lerp(Part(from, to, f), Part(from, to, g), u) == Part(from, to, Bezier.Lerp(f, g, u))
  {
  }
}
