// What is built is what is played.
module RoundTrip {
  import opened Basics
  import opened Parsing
  import opened TrajectoryFormat
  import opened Drawing
  import opened BuilderRuns
  import opened Timeline
  import opened TrajectoryMotion
  import opened TrajectoryHistory
  import Bezier
  import TrajectoryPlayback

  lemma {:induction false} BeforeIsAfter(scale: nat, p: Point, segs: seq<Segment>, k: nat, a: Axis)
    requires k <= |segs|
    ensures Before(a, scale, p.On(a), segs, k) == After(scale, p, segs[..k]).On(a)
    decreases k
  {
    hide AfterSegment;
    if k == 0 {
      assert segs[..0] == [];
    } else {
      BeforeIsAfter(scale, p, segs, k - 1, a);
      assert segs[..k] == segs[..k - 1] + [segs[k - 1]];
      AfterConcat(scale, p, segs[..k - 1], [segs[k - 1]]);
      AfterOne(scale, After(scale, p, segs[..k - 1]), segs[k - 1], a);
    }
  }

  lemma AfterOne(scale: nat, p: Point, s: Segment, a: Axis)
    ensures After(scale, p, [s]).On(a) == EndOn(a, scale, p.On(a), s.On(a))
  {
    hide EndOn;
    assert [s][1..] == [];
    assert After(scale, AfterSegment(scale, p, s), []) == AfterSegment(scale, p, s);
  }

  /** At a joint the motion is where the segments before it lead to, unless the axis is moved in
      no time. */
  lemma PositionAtJoint(scale: nat, p: Point, segs: seq<Segment>, k: nat, a: Axis)
    requires Linear(a, segs) && NoInstantMoves(a, scale, p.On(a), segs) && k <= |segs|
    ensures PositionAt(a, scale, p.On(a), segs, Finite(Sec(StartMsec(Durations(segs), k))))
            == After(scale, p, segs[..k]).On(a)
  {
    hide Motion, After, Before, FromPiece, StartMsec, Linear, NoInstantMoves, JointsMeet, FirstSeen;
    var ds := Durations(segs);
    var t := Sec(StartMsec(ds, k));
    JointContained(ds, k);
    LinearMeetIff(a, scale, p.On(a), segs);
    PieceIsMotion(a, scale, p.On(a), segs, k, t);
    ShowsFirst(a, scale, p.On(a), segs, k);
    NotMoved(a, scale, p.On(a), segs, k);
    RestsAt(a, scale, p.On(a), segs, k);
    BeforeIsAfter(scale, p, segs, k, a);
  }

  lemma JointContained(ds: seq<nat>, k: nat)
    requires k <= |ds|
    ensures Contains(ds, k, Finite(Sec(StartMsec(ds, k))))
  {
    if k < |ds| { StartStep(ds, k); }
  }

  lemma NotMoved(a: Axis, scale: nat, from: real, segs: seq<Segment>, k: nat)
    requires NoInstantMoves(a, scale, from, segs)
    ensures k < |segs| && segs[k].duration == 0 ==> !Shifts(a, scale, from, segs, k)
  {
  }

  // ---- a builder writes lines ----

  predicate IsLine(s: Segment) { |s.x| <= 1 && |s.y| <= 1 && |s.z| <= 1 && |s.yaw| <= 1 }

  predicate AllLines(segs: seq<Segment>) { forall i :: 0 <= i < |segs| ==> IsLine(segs[i]) }

  /** Every segment takes time. */
  predicate AllTakeTime(segs: seq<Segment>) { forall i :: 0 <= i < |segs| ==> segs[i].duration > 0 }

  lemma {:induction false} LinesAreLines(last: Point, target: Point, duration: nat, scale: nat)
    requires scale > 0
    ensures AllLines(Lines(last, target, duration, scale))
    ensures duration > 0 ==> AllTakeTime(Lines(last, target, duration, scale))
    decreases duration
  {
    hide Scaled, Tenths, Midpoint;
    if duration > MAX_DURATION_MSEC {
      var m, half := Midpoint(last, target), duration / 2;
      LinesAreLines(last, m, half, scale);
      LinesAreLines(m, target, duration - half, scale);
    }
  }

  lemma {:induction false} HoldsAreLines(duration: nat)
    ensures AllLines(Holds(duration)) && AllTakeTime(Holds(duration))
    decreases duration
  {
    if duration > 0 {
      HoldsAreLines(duration - if duration > MAX_DURATION_MSEC then MAX_DURATION_MSEC else duration);
    }
  }

  /** All that a run writes is lines. */
  lemma {:induction false} RunWritesLines(s: Sketch, calls: seq<Call>)
    requires s.scale > 0 && AllLines(s.segs) && Run(s, calls).Some?
    ensures AllLines(Run(s, calls).value.segs)
    decreases |calls|
  {
    hide IsLine, Lines, Holds, PointFits, Writable, Raw;
    if calls != [] {
      match calls[0] {
        case Start(_) =>
        case Line(target, duration) => LinesAreLines(s.last, target, duration, s.scale);
        case Hold(time) => HoldsAreLines(time);
      }
      RunWritesLines(Apply(s, calls[0]).value, calls[1..]);
    }
  }

  lemma LinesAreLinear(a: Axis, segs: seq<Segment>)
    requires AllLines(segs)
    ensures Linear(a, segs)
  {
    forall k | 0 <= k < |segs| ensures |segs[k].On(a)| <= 1 { assert IsLine(segs[k]); }
  }

  /** The round trip: the finished bytes read as what was drawn, and a player of them, whatever
      segment it has cached, asked for the time when the first i calls are over, answers with the
      quantised position that the builder had been given by then, on every axis that no line call of
      no duration moves. */
  lemma BuiltTrajectoryPlays(scale: nat, useYaw: bool, calls: seq<Call>, i: nat, a: Axis, k: nat)
    requires 0 < scale <= 127 && i <= |calls|
    requires Run(New(scale, useYaw), calls).Some? && Run(New(scale, useYaw), calls[..i]).Some?
    requires Settled(calls, i) && NoInstantLines(scale, calls, a)
    requires k <= |Run(New(scale, useYaw), calls).value.segs|
    ensures var now := Run(New(scale, useYaw), calls).value;
            var ds, t := Durations(now.segs), Finite(RunTime(calls[..i]) as real / 1000.0);
            Proper(now) && ReadAll(Bytes(now), HEADER_LENGTH) == Some(now.segs)
            && FromPiece(a, scale, StartPoint(scale, now.start).On(a), now.segs, Land(ds, k, t), t)
               == Quantised(Run(New(scale, useYaw), calls[..i]).value.last, scale).On(a)
  {
    hide Run, Quantised, PositionAt, After, Sum, Bytes, ReadAll, AllLines, Linear, NoInstantMoves, NoInstantLines,
      JointsMeet, FromPiece, Land;
    PlaybackOfRun(scale, useYaw, calls, i);
    InstantLinesMove(scale, useYaw, calls, a);
    var early, now := Run(New(scale, useYaw), calls[..i]).value, Run(New(scale, useYaw), calls).value;
    var from := StartPoint(scale, now.start);
    NothingWritten();
    RunWritesLines(New(scale, useYaw), calls);
    LinesAreLinear(a, now.segs);
    PositionAtJoint(scale, from, now.segs, |early.segs|, a);
    assert Durations(now.segs)[..|early.segs|] == Durations(now.segs[..|early.segs|]);
    LinearMeetIff(a, scale, from.On(a), now.segs);
    SameFromAnyPiece(a, scale, from.On(a), now.segs, k, Finite(Sec(RunTime(calls[..i]))));
    ClipJoint(Durations(now.segs), |early.segs|);
  }

  lemma NothingWritten()
    ensures AllLines([])
  {
  }

  // ---- and only then ----

  /** A player can be asked for the time when the first i calls are over, with segment k cached.
      A start that a later call replaces is not part of what was drawn. */
  ghost predicate Asked(scale: nat, useYaw: bool, calls: seq<Call>, i: nat, k: nat)
    requires scale > 0 && Run(New(scale, useYaw), calls).Some?
  {
    i <= |calls| && k <= |Run(New(scale, useYaw), calls).value.segs|
    && Run(New(scale, useYaw), calls[..i]).Some?
    && Settled(calls, i)
  }

  /** It answers with the quantised position given by then. */
  ghost predicate Answered(scale: nat, useYaw: bool, calls: seq<Call>, a: Axis, i: nat, k: nat)
    requires scale > 0 && Run(New(scale, useYaw), calls).Some? && Asked(scale, useYaw, calls, i, k)
  {
    var now := Run(New(scale, useYaw), calls).value;
    var ds, t := Durations(now.segs), Finite(RunTime(calls[..i]) as real / 1000.0);
    |now.start| == 4
    && FromPiece(a, scale, StartPoint(scale, now.start).On(a), now.segs, Land(ds, k, t), t)
       == Quantised(Run(New(scale, useYaw), calls[..i]).value.last, scale).On(a)
  }

  ghost predicate PlaysBack(scale: nat, useYaw: bool, calls: seq<Call>, a: Axis)
    requires scale > 0 && Run(New(scale, useYaw), calls).Some?
  {
    forall i: nat, k: nat :: Asked(scale, useYaw, calls, i, k) ==> Answered(scale, useYaw, calls, a, i, k)
  }

  /** A segment of no duration is the last of a line call of no duration. */
  lemma {:induction false} InstantIsLast(s: Sketch, calls: seq<Call>, m: nat) returns (i: nat)
    requires Faithful(s) && Run(s, calls).Some?
    requires |s.segs| <= m < |Run(s, calls).value.segs| && Run(s, calls).value.segs[m].duration == 0
    ensures 1 <= i <= |calls| && Run(s, calls[..i]).Some? && |Run(s, calls[..i]).value.segs| == m + 1
    ensures calls[i - 1].Line? && calls[i - 1].duration == 0
    decreases |calls|
  {
    hide IsLine, Lines, Holds, PointFits, Writable, Raw, Run, Reached, Quantised, AllStorable;
    if calls == [] { EmptyRun(s, calls); }
    RunStep(s, calls);
    var t := Apply(s, calls[0]).value;
    ApplyFaithful(s, calls[0]);
    RunFaithful(t, calls[1..]);
    if |t.segs| <= m {
      var j := InstantIsLast(t, calls[1..], m);
      i := j + 1;
      assert calls[..i][1..] == calls[1..][..j];
      RunStep(s, calls[..i]);
    } else {
      assert t.segs[m].duration == 0;
      i := 1;
      assert calls[..1][1..] == [];
      RunStep(s, calls[..1]);
      EmptyRun(t, []);
      OneSegment(s, calls[0], m);
    }
  }

  lemma RunStep(s: Sketch, calls: seq<Call>)
    requires s.scale > 0 && calls != []
    ensures Apply(s, calls[0]).Some? ==> Apply(s, calls[0]).value.scale == s.scale
    ensures Run(s, calls)
            == if Apply(s, calls[0]).None? then None else Run(Apply(s, calls[0]).value, calls[1..])
  {
    hide Lines, Holds, PointFits, Writable, Raw;
  }

  lemma OneSegment(s: Sketch, call: Call, m: nat)
    requires s.scale > 0 && Apply(s, call).Some? && |s.segs| <= m < |Apply(s, call).value.segs|
    requires Apply(s, call).value.segs[m].duration == 0
    ensures |Apply(s, call).value.segs| == m + 1 && call.Line? && call.duration == 0
  {
    hide IsLine, Holds, PointFits, Writable, Raw, LineSegment;
    match call
    case Start(_) =>
    case Line(target, duration) => LinesAreLines(s.last, target, duration, s.scale);
    case Hold(time) => HoldsAreLines(time);
  }

  /** A line call that leads, on this axis, to another quantised position than the one before it. */
  predicate LineShifts(scale: nat, calls: seq<Call>, a: Axis, j: nat)
    requires scale > 0 && j < |calls| && calls[j].Line?
  {
    Quantised(calls[j].target, scale).On(a) != Quantised(LastOf(ORIGIN, calls[..j]), scale).On(a)
  }

  /** No line call of no duration does so. */
  predicate NoInstantLines(scale: nat, calls: seq<Call>, a: Axis)
    requires scale > 0
  {
    forall j :: 0 <= j < |calls| && calls[j].Line? && calls[j].duration == 0 ==> !LineShifts(scale, calls, a, j)
  }

  /** A line call of at most a minute writes one segment, from the quantised position before it to
      its quantised target. */
  lemma WholeLine(scale: nat, useYaw: bool, calls: seq<Call>, a: Axis, j: nat)
    requires 0 < scale <= 127 && Run(New(scale, useYaw), calls).Some?
    requires j < |calls| && calls[j].Line? && calls[j].duration <= MAX_DURATION_MSEC
    ensures Run(New(scale, useYaw), calls[..j]).Some? && Run(New(scale, useYaw), calls[..j + 1]).Some?
    ensures var now, m := Run(New(scale, useYaw), calls).value, |Run(New(scale, useYaw), calls[..j]).value.segs|;
            |now.start| == 4 && m < |now.segs| && now.segs[m].duration == calls[j].duration
            && |Run(New(scale, useYaw), calls[..j + 1]).value.segs| == m + 1
            && Sum(Durations(now.segs[..m])) == RunTime(calls[..j])
            && Before(a, scale, StartPoint(scale, now.start).On(a), now.segs, m)
               == Quantised(LastOf(ORIGIN, calls[..j]), scale).On(a)
            && Before(a, scale, StartPoint(scale, now.start).On(a), now.segs, m + 1)
               == Quantised(calls[j].target, scale).On(a)
  {
    hide Run, Quantised, After, Before, Sum, Bytes, ReadAll, LastOf, Writable, LineSegment;
    var s := New(scale, useYaw);
    RunSplit(s, calls, j);
    RunSplit(s, calls, j + 1);
    assert calls[..j] + [calls[j]] == calls[..j + 1];
    RunSnoc(s, calls[..j], calls[j]);
    var early, now := Run(s, calls[..j]).value, Run(s, calls).value;
    var m := |early.segs|;
    NewFaithful(scale, useYaw);
    SameScale(s, calls[..j]);
    OneSegmentLine(early, calls[j]);
    PlaybackOfRun(scale, useYaw, calls, j);
    PlaybackOfRun(scale, useYaw, calls, j + 1);
    RunLast(s, calls[..j]);
    BeforeIsAfter(scale, StartPoint(scale, now.start), now.segs, m, a);
    BeforeIsAfter(scale, StartPoint(scale, now.start), now.segs, m + 1, a);
  }

  /** A line call of no duration writes one segment of no duration, which moves the axis exactly
      if the call does. */
  lemma InstantLine(scale: nat, useYaw: bool, calls: seq<Call>, a: Axis, j: nat)
    requires 0 < scale <= 127 && Run(New(scale, useYaw), calls).Some?
    requires j < |calls| && calls[j].Line? && calls[j].duration == 0
    ensures Run(New(scale, useYaw), calls[..j]).Some? && Run(New(scale, useYaw), calls[..j + 1]).Some?
    ensures var now, m := Run(New(scale, useYaw), calls).value, |Run(New(scale, useYaw), calls[..j]).value.segs|;
            |now.start| == 4 && m < |now.segs| && now.segs[m].duration == 0
            && |Run(New(scale, useYaw), calls[..j + 1]).value.segs| == m + 1
            && (Shifts(a, scale, StartPoint(scale, now.start).On(a), now.segs, m) <==> LineShifts(scale, calls, a, j))
  {
    hide Run, Quantised, Before, Sum, LastOf, StartPoint;
    WholeLine(scale, useYaw, calls, a, j);
  }

  lemma SameScale(s: Sketch, calls: seq<Call>)
    requires Faithful(s) && Run(s, calls).Some?
    ensures Run(s, calls).value.scale == s.scale
  {
    hide Run;
    RunFaithful(s, calls);
  }

  lemma OneSegmentLine(s: Sketch, call: Call)
    requires s.scale > 0 && call.Line? && call.duration <= MAX_DURATION_MSEC && Apply(s, call).Some?
    ensures var t := Apply(s, call).value;
            |t.segs| == |s.segs| + 1 && t.segs[|s.segs|].duration == call.duration && t.last == call.target
  {
    hide Writable;
  }

  /** The condition on the calls is the condition on the segments that they write. */
  lemma InstantLinesMove(scale: nat, useYaw: bool, calls: seq<Call>, a: Axis)
    requires 0 < scale <= 127 && Run(New(scale, useYaw), calls).Some?
    ensures var now := Run(New(scale, useYaw), calls).value;
            |now.start| == 4
            && (NoInstantMoves(a, scale, StartPoint(scale, now.start).On(a), now.segs)
                <==> NoInstantLines(scale, calls, a))
  {
    hide Run, Quantised, Shifts, LineShifts, Bytes, StartPoint;
    NewFaithful(scale, useYaw);
    RunFaithful(New(scale, useYaw), calls);
    var now := Run(New(scale, useYaw), calls).value;
    var from := StartPoint(scale, now.start).On(a);
    if NoInstantMoves(a, scale, from, now.segs) {
      forall j | 0 <= j < |calls| && calls[j].Line? && calls[j].duration == 0 ensures !LineShifts(scale, calls, a, j) {
        InstantLine(scale, useYaw, calls, a, j);
      }
    }
    if NoInstantLines(scale, calls, a) {
      forall m | 0 <= m < |now.segs| && now.segs[m].duration == 0 ensures !Shifts(a, scale, from, now.segs, m) {
        var i := InstantIsLast(New(scale, useYaw), calls, m);
        InstantLine(scale, useYaw, calls, a, i - 1);
      }
    }
  }

  /** For every accepted run of calls: whatever segment is cached, the times when calls are over
      play back the quantised positions, if and only if no line call of no duration leads to
      another quantised position than the one before it, on this axis. */
  lemma PlaysBackIff(scale: nat, useYaw: bool, calls: seq<Call>, a: Axis)
    requires 0 < scale <= 127 && Run(New(scale, useYaw), calls).Some?
    ensures PlaysBack(scale, useYaw, calls, a) <==> NoInstantLines(scale, calls, a)
  {
    hide Run, Quantised, NoInstantMoves, NoInstantLines, FromPiece, Land, Bytes, ReadAll;
    InstantLinesMove(scale, useYaw, calls, a);
    if NoInstantLines(scale, calls, a) {
      forall i: nat, k: nat | Asked(scale, useYaw, calls, i, k) ensures Answered(scale, useYaw, calls, a, i, k) {
        BuiltTrajectoryPlays(scale, useYaw, calls, i, a, k);
      }
    } else {
      var i, k := InstantMoveShows(scale, useYaw, calls, a);
      assert !Answered(scale, useYaw, calls, a, i, k);
    }
  }

  /** Playback of a line is straight and steady: of an accepted run on whose axis no line call of no
      duration leads elsewhere, a line call of d ms, d at most a minute, shows at every fraction u of
      its time, so many seconds after the calls before it, that fraction of the way from the
      quantised position before it to its quantised target; whatever segment is cached. */
  lemma LinePlaysStraight(scale: nat, useYaw: bool, calls: seq<Call>, a: Axis, j: nat, u: real, k: nat)
    requires 0 < scale <= 127 && Run(New(scale, useYaw), calls).Some? && NoInstantLines(scale, calls, a)
    requires j < |calls| && calls[j].Line? && 0 < calls[j].duration <= 60000 && 0.0 <= u <= 1.0
    requires k <= |Run(New(scale, useYaw), calls).value.segs|
    ensures var now := Run(New(scale, useYaw), calls).value;
            var from, to := Quantised(LastOf(ORIGIN, calls[..j]), scale).On(a), Quantised(calls[j].target, scale).On(a);
            var t := Finite((RunTime(calls[..j]) as real + u * calls[j].duration as real) / 1000.0);
            |now.start| == 4
            && FromPiece(a, scale, StartPoint(scale, now.start).On(a), now.segs, Land(Durations(now.segs), k, t), t)
               == (1.0 - u) * from + u * to
  {
    hide Run, Quantised, Before, Sum, LastOf, StartPoint, FromPiece, Land, Contains, NoInstantMoves, NoInstantLines,
      JointsMeet, Linear, Points;
    WholeLine(scale, useYaw, calls, a, j);
    InstantLinesMove(scale, useYaw, calls, a);
    var now, m := Run(New(scale, useYaw), calls).value, |Run(New(scale, useYaw), calls[..j]).value.segs|;
    var p := StartPoint(scale, now.start).On(a);
    NothingWritten();
    RunWritesLines(New(scale, useYaw), calls);
    LinesAreLinear(a, now.segs);
    LinearMeetIff(a, scale, p, now.segs);
    Inside(a, scale, p, now.segs, m, u, k, RunTime(calls[..j]), calls[j].duration,
           Quantised(LastOf(ORIGIN, calls[..j]), scale).On(a), Quantised(calls[j].target, scale).On(a));
  }

  lemma Inside(a: Axis, scale: nat, p: real, segs: seq<Segment>, m: nat, u: real, k: nat,
               start: nat, d: nat, from: real, to: real)
    requires Linear(a, segs) && JointsMeet(a, scale, p, segs) && k <= |segs|
    requires m < |segs| && segs[m].duration == d > 0 && 0.0 <= u <= 1.0 && Sum(Durations(segs[..m])) == start
    requires Before(a, scale, p, segs, m) == from && Before(a, scale, p, segs, m + 1) == to
    ensures var t := Moment(start, u, d);
            FromPiece(a, scale, p, segs, Land(Durations(segs), k, t), t) == Bezier.Lerp(from, to, u)
  {
    hide Sum, FromPiece, Land, Contains, JointsMeet, Before, Points, Bezier.Lerp, Moment;
    SegmentShowsCurve(a, scale, p, segs, m, u);
    var t := Moment(start, u, d);
    PieceIsMotion(a, scale, p, segs, m, t.t);
    LandContains(Durations(segs), k, t);
    ClipLater(t);
    PieceIsMotion(a, scale, p, segs, Land(Durations(segs), k, t), t.t);
    LineCurve(a, scale, p, segs, m, u);
  }

  lemma ClipLater(t: Time)
    requires t.Finite? && t.t >= 0.0
    ensures Clip(t) == t
  {
  }

  /** And a hold call keeps the quantised position before it until it is over. */
  lemma HoldPlaysStill(scale: nat, useYaw: bool, calls: seq<Call>, a: Axis, j: nat, t: real, k: nat)
    requires 0 < scale <= 127 && Run(New(scale, useYaw), calls).Some? && NoInstantLines(scale, calls, a)
    requires j < |calls| && calls[j].Hold? && Settled(calls, j)
    requires RunTime(calls[..j]) as real / 1000.0 <= t <= RunTime(calls[..j + 1]) as real / 1000.0
    requires k <= |Run(New(scale, useYaw), calls).value.segs|
    ensures var now := Run(New(scale, useYaw), calls).value;
            |now.start| == 4
            && FromPiece(a, scale, StartPoint(scale, now.start).On(a), now.segs,
                         Land(Durations(now.segs), k, Finite(t)), Finite(t))
               == Quantised(LastOf(ORIGIN, calls[..j]), scale).On(a)
  {
    hide Run, Quantised, Before, Sum, LastOf, StartPoint, FromPiece, Land, Contains, NoInstantMoves, NoInstantLines,
      JointsMeet, Linear, Points, After, Bytes, ReadAll, Holds, Durations;
    var s := New(scale, useYaw);
    NewFaithful(scale, useYaw);
    RunSplit(s, calls, j);
    RunSplit(s, calls, j + 1);
    assert calls[..j] + [calls[j]] == calls[..j + 1];
    RunSnoc(s, calls[..j], calls[j]);
    var early, later, now := Run(s, calls[..j]).value, Run(s, calls[..j + 1]).value, Run(s, calls).value;
    PlaybackOfRun(scale, useYaw, calls, j);
    PlaybackOfRun(scale, useYaw, calls, j + 1);
    RunLast(s, calls[..j]);
    BeforeIsAfter(scale, StartPoint(scale, now.start), now.segs, |early.segs|, a);
    NothingWritten();
    RunWritesLines(s, calls);
    LinesAreLinear(a, now.segs);
    InstantLinesMove(scale, useYaw, calls, a);
    LinearMeetIff(a, scale, StartPoint(scale, now.start).On(a), now.segs);
    AddedHolds(early, later, calls[j].time, now.segs);
    Still(a, scale, StartPoint(scale, now.start).On(a), now.segs, |early.segs|, |later.segs|,
          RunTime(calls[..j]), RunTime(calls[..j + 1]), t, k);
  }

  predicate Rests(segs: seq<Segment>, m: nat, n: nat) {
    n <= |segs| && forall i :: m <= i < n ==> segs[i].x == [] && segs[i].y == [] && segs[i].z == [] && segs[i].yaw == []
  }

  lemma {:induction false} HoldsRest(time: nat)
    ensures Rests(Holds(time), 0, |Holds(time)|)
    decreases time
  {
    if time > 0 {
      HoldsRest(time - if time > MAX_DURATION_MSEC then MAX_DURATION_MSEC else time);
    }
  }

  lemma AddedHolds(early: Sketch, later: Sketch, time: nat, segs: seq<Segment>)
    requires later.segs == early.segs + Holds(time) && later.segs <= segs
    ensures Rests(segs, |early.segs|, |later.segs|)
  {
    HoldsRest(time);
    forall i | |early.segs| <= i < |later.segs|
      ensures segs[i].x == [] && segs[i].y == [] && segs[i].z == [] && segs[i].yaw == []
    {
      assert segs[i] == Holds(time)[i - |early.segs|];
    }
  }

  /** Segments that rest keep the position. */
  lemma {:induction false} StaysBefore(a: Axis, scale: nat, p: real, segs: seq<Segment>, m: nat, n: nat, i: nat)
    requires Rests(segs, m, n) && m <= i <= n
    ensures Before(a, scale, p, segs, i) == Before(a, scale, p, segs, m)
    decreases i
  {
    if i > m { StaysBefore(a, scale, p, segs, m, n, i - 1); }
  }

  lemma Still(a: Axis, scale: nat, p: real, segs: seq<Segment>, m: nat, n: nat, start: nat, end: nat, t: real, k: nat)
    requires Linear(a, segs) && JointsMeet(a, scale, p, segs) && NoInstantMoves(a, scale, p, segs) && k <= |segs|
    requires m <= n && Rests(segs, m, n)
    requires Sum(Durations(segs[..m])) == start && Sum(Durations(segs[..n])) == end
    requires start as real / 1000.0 <= t <= end as real / 1000.0
    ensures FromPiece(a, scale, p, segs, Land(Durations(segs), k, Finite(t)), Finite(t)) == Before(a, scale, p, segs, m)
  {
    hide Sum, FromPiece, Land, Contains, JointsMeet, NoInstantMoves, Before, Points, Durations;
    var ds := Durations(segs);
    DurationsOfPrefix(segs, m);
    DurationsOfPrefix(segs, n);
    LandContains(ds, k, Finite(t));
    ClipLater(Finite(t));
    PieceIsMotion(a, scale, p, segs, Land(ds, k, Finite(t)), t);
    StaysBefore(a, scale, p, segs, m, n, n);
    if t == end as real / 1000.0 {
      JointContained(ds, n);
      StartIsSum(ds, n);
      PieceIsMotion(a, scale, p, segs, n, t);
      ShowsFirst(a, scale, p, segs, n);
      NotMoved(a, scale, p, segs, n);
      RestsAt(a, scale, p, segs, n);
    } else {
      var i := RestingPiece(ds, m, n, t);
      PieceIsMotion(a, scale, p, segs, i, t);
      StaysBefore(a, scale, p, segs, m, n, i);
      RestingShows(a, scale, p, segs, i, Finite(t));
    }
  }

  lemma DurationsOfPrefix(segs: seq<Segment>, m: nat)
    requires m <= |segs|
    ensures Durations(segs)[..m] == Durations(segs[..m])
  {
  }

  lemma RestingPiece(ds: seq<nat>, m: nat, n: nat, t: real) returns (i: nat)
    requires m <= n <= |ds| && Sum(ds[..m]) as real / 1000.0 <= t < Sum(ds[..n]) as real / 1000.0
    ensures m <= i < n && Contains(ds, i, Finite(t))
  {
    hide Sum;
    StartIsSum(ds, m);
    StartIsSum(ds, n);
    ForwardContains(ds, m, Finite(t));
    i := Forward(ds, m, Finite(t));
    if i >= n { StartMonotone(ds, n, i); }
  }

  lemma RestingShows(a: Axis, scale: nat, p: real, segs: seq<Segment>, i: nat, t: Time)
    requires i < |segs| && segs[i].On(a) == []
    ensures FromPiece(a, scale, p, segs, i, t) == Before(a, scale, p, segs, i)
  {
    var from := Before(a, scale, p, segs, i);
    assert Before(a, scale, p, segs, i + 1) == EndOn(a, scale, from, segs[i].On(a)) == from;
    hide Before, RelativeTime;
    var u := RelativeTime(Durations(segs), i, t);
    CoefficientsAreCurve(a, scale, from, segs[i].On(a), u);
    LineCurve(a, scale, p, segs, i, u);
    LerpSame(from, u);
  }

  lemma LerpSame(x: real, u: real)
    ensures Bezier.Lerp(x, x, u) == x
  {
  }

  /** For instance: a builder of scale 1, a line to x = 100 in ten seconds, asked after five. */
  lemma HalfOfALine(k: nat)
    requires k <= 1
    ensures var calls := [Line(Point(100.0, 0.0, 0.0, 0.0), 10000)];
            var s := Run(New(1, false), calls);
            s.Some? && |s.value.start| == 4 && |s.value.segs| == 1
            && FromPiece(X, 1, StartPoint(1, s.value.start).x, s.value.segs,
                         Land(Durations(s.value.segs), k, Finite(5.0)), Finite(5.0))
               == 50.0
  {
    hide FromPiece, Land, StartPoint;
    var calls := [Line(Point(100.0, 0.0, 0.0, 0.0), 10000)];
    RunStep(New(1, false), calls);
    assert calls[1..] == [] && calls[..0] == [];
    assert 100.0 / 1.0 == 100.0;
    assert Writable(ORIGIN, calls[0].target, 10000, 1);
    assert Quantised(calls[0].target, 1).x == 100.0;
    QuantisedOrigin(1);
    LinePlaysStraight(1, false, calls, X, 0, 0.5, k);
  }

  /** For instance: a line of 100 units in no time. */
  lemma InstantLineDeparts()
    ensures var calls := [Line(Point(100.0, 0.0, 0.0, 0.0), 0)];
            Run(New(1, false), calls).Some? && !PlaysBack(1, false, calls, X)
  {
    hide PlaysBack;
    var calls := [Line(Point(100.0, 0.0, 0.0, 0.0), 0)];
    RunStep(New(1, false), calls);
    assert calls[1..] == [];
    assert 100.0 / 1.0 == 100.0;
    assert Writable(ORIGIN, calls[0].target, 0, 1);
    assert calls[..0] == [];
    assert Quantised(calls[0].target, 1).x == 100.0;
    QuantisedOrigin(1);
    assert LineShifts(1, calls, X, 0);
    PlaysBackIff(1, false, calls, X);
  }

  predicate TakesTime(c: Call) { c.Line? ==> c.duration > 0 }

  /** So it does when all line calls take time. */
  lemma CallsThatTakeTime(scale: nat, useYaw: bool, calls: seq<Call>, a: Axis)
    requires 0 < scale <= 127 && Run(New(scale, useYaw), calls).Some?
    requires forall i :: 0 <= i < |calls| ==> TakesTime(calls[i])
    ensures PlaysBack(scale, useYaw, calls, a)
  {
    hide Run, PlaysBack, LineShifts;
    PlaysBackIff(scale, useYaw, calls, a);
  }

  /** A player that has the last instant move cached is half way through it. */
  lemma InstantMoveShows(scale: nat, useYaw: bool, calls: seq<Call>, a: Axis) returns (i: nat, k: nat)
    requires 0 < scale <= 127 && Run(New(scale, useYaw), calls).Some?
    requires var now := Run(New(scale, useYaw), calls).value;
             |now.start| == 4 && !NoInstantMoves(a, scale, StartPoint(scale, now.start).On(a), now.segs)
    ensures Asked(scale, useYaw, calls, i, k) && !Answered(scale, useYaw, calls, a, i, k)
  {
    hide Run, Quantised, After, Sum, Bytes, ReadAll, AllLines, Linear, NoInstantMoves, Shifts, FromPiece, Land,
      FirstSeen, LastSeen, Before, StartMsec, Contains, Faithful;
    NewFaithful(scale, useYaw);
    NothingWritten();
    RunWritesLines(New(scale, useYaw), calls);
    var now := Run(New(scale, useYaw), calls).value;
    var p := StartPoint(scale, now.start);
    var ds := Durations(now.segs);
    LinesAreLinear(a, now.segs);
    k := LastInstantMove(a, scale, p.On(a), now.segs, |now.segs|);
    i := InstantIsLast(New(scale, useYaw), calls, k);
    PlaybackOfRun(scale, useYaw, calls, i);
    assert ds[..k + 1] == Durations(now.segs[..k + 1]);
    BeforeIsAfter(scale, p, now.segs, k + 1, a);
    ShowsLast(a, scale, p.On(a), now.segs, k);
    MoveShows(a, scale, p.On(a), now.segs, k);
    RestsAt(a, scale, p.On(a), now.segs, k + 1);
    MeetAtJoint(ds, k, Finite(Sec(StartMsec(ds, k + 1))));
    StaysPut(ds, k, Finite(Sec(StartMsec(ds, k + 1))));
    StartIsSum(ds, k + 1);
  }

  lemma StartIsSum(ds: seq<nat>, k: nat)
    requires k <= |ds|
    ensures StartMsec(ds, k) == Sum(ds[..k])
  {
  }

  /** And the trajectory lasts as long as the calls together. */
  lemma BuiltTrajectoryLasts(scale: nat, useYaw: bool, calls: seq<Call>)
    requires 0 < scale <= 127 && Run(New(scale, useYaw), calls).Some?
    ensures var now := Run(New(scale, useYaw), calls).value;
            Proper(now) && Sum(Durations(now.segs)) == RunTime(calls)
            && (RunTime(calls) < UINT32_MODULUS ==>
                  TrajectoryPlayback.WellFormed(Bytes(now), HEADER_LENGTH, scale, now.segs))
  {
    hide Run, Sum, Bytes, ReadAll, Apply;
    NewFaithful(scale, useYaw);
    RunFaithful(New(scale, useYaw), calls);
    ReadBack(Run(New(scale, useYaw), calls).value);
    NoDuration();
  }

  lemma NoDuration()
    ensures Sum(Durations([])) == 0
  {
  }
}
