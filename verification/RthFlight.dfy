// What the trajectory of a plan's entry flies: where the vehicle is, and when, in seconds.
module RthFlights {
  import opened Basics
  import opened TrajectoryFormat
  import opened Drawing
  import opened BuilderRuns
  import opened RthPlans
  import opened RthTrajectories
  import opened RoundTrip
  import Timeline
  import TrajectoryMotion
  import TrajectoryHistory

  /** The trajectory of an entry: what its builder calls have drawn. */
  ghost predicate Flies(e: Entry, start: Point, scale: nat, s: Sketch) {
    Plausible(e) && 0 < scale <= MAX_SCALE && Run(New(scale, false), CallsOf(e, start)) == Some(s)
  }

  /** It lasts as long as the time of the entry and its delay before, its neck, its action and its
      delay after, each rounded down to whole milliseconds. */
  lemma FlightTime(e: Entry, start: Point, scale: nat, s: Sketch)
    requires Flies(e, start, scale, s)
    ensures Sum(Durations(s.segs))
            == (1000.0 * ((if e.timeSec.x < 0.0 then 0.0 else e.timeSec.x) + e.preDelay.x)).Floor
               + (1000.0 * e.preNeckDuration.x).Floor
               + (if e.action == Land then 0 else (1000.0 * e.duration.x).Floor)
               + (1000.0 * e.postDelay.x).Floor
  {
    hide Run, Sum, Quantised, Reached, Proper, StartPoint, Goal, Msec, HoldSec, CallsOf;
    ConversionMeaning(e, start, scale);
    HoldMsec(e);
    WholeMsec(e.preNeckDuration.x);
    WholeMsec(e.duration.x);
    WholeMsec(e.postDelay.x);
    UnusedTimes(e);
  }

  lemma UnusedTimes(e: Entry)
    requires Plausible(e)
    ensures !NeckUsed(e) ==> Msec(e.preNeckDuration) == 0
    ensures !Above(e.postDelay) ==> Msec(e.postDelay) == 0
  {
  }

  /** It starts at the quantised start and ends above the target, or where it started when there is
      none: at the altitude of the entry, if it gives one, or else at that of the start. */
  lemma FlightEnds(e: Entry, start: Point, scale: nat, s: Sketch)
    requires Flies(e, start, scale, s)
    ensures |s.start| == 4 && StartPoint(scale, s.start) == Quantised(start, scale)
    ensures Reached(s)
            == Quantised(Point(if e.action == Land then start.x else e.targetX,
                               if e.action == Land then start.y else e.targetY,
                               if e.action == GoToWithAltitude then e.altitude else start.z,
                               start.yaw), scale)
  {
    hide Run, Sum, Quantised, Reached, StartPoint, TotalMsec;
    ConversionMeaning(e, start, scale);
  }

  /** Until the time of the entry and its delay are over it stays at the quantised start, whatever
      segment a player has cached. */
  lemma WaitsAtStart(e: Entry, start: Point, scale: nat, s: Sketch, a: Axis, t: real, k: nat)
    requires Flies(e, start, scale, s) && k <= |s.segs| && 0.0 <= t
    requires t < (1000.0 * ((if e.timeSec.x < 0.0 then 0.0 else e.timeSec.x) + e.preDelay.x)).Floor as real / 1000.0
    ensures |s.start| == 4
    ensures var time := Timeline.Finite(t);
            TrajectoryMotion.FromPiece(a, scale, StartPoint(scale, s.start).On(a), s.segs,
                                       Timeline.Land(Durations(s.segs), k, time), time)
            == Quantised(start, scale).On(a)
  {
    hide Run, Sum, Quantised, StartPoint, Durations, TrajectoryMotion.FromPiece, Timeline.Land, Msec, HoldSec,
      NeckCalls, ActionCalls, PostCalls, WholeSeconds;
    HoldMsec(e);
    FlightEnds(e, start, scale, s);
    var calls := CallsOf(e, start);
    assert calls[0] == Start(start) && calls[1] == Hold(Msec(HoldSec(e)));
    FirstIsHold(calls, scale, start, Msec(HoldSec(e)));
    assert s.segs[..|Holds(Msec(HoldSec(e)))|] == Holds(Msec(HoldSec(e)));
    StillFirst(a, scale, StartPoint(scale, s.start).On(a), s.segs, |Holds(Msec(HoldSec(e)))|, Msec(HoldSec(e)), t, k);
  }

  /** The first segments of a run that starts and holds are those of the hold. */
  lemma FirstIsHold(calls: seq<Call>, scale: nat, p: Point, msec: nat)
    requires 0 < scale <= MAX_SCALE && |calls| >= 2 && calls[0] == Start(p) && calls[1] == Hold(msec)
    requires Run(New(scale, false), calls).Some?
    ensures Holds(msec) <= Run(New(scale, false), calls).value.segs
    ensures Rests(Run(New(scale, false), calls).value.segs, 0, |Holds(msec)|)
    ensures Sum(Durations(Holds(msec))) == msec
  {
    hide Run, Sum, Holds, Raw, PointFits;
    var s := New(scale, false);
    RunSplit(s, calls, 2);
    NewFaithful(scale, false);
    assert calls[..2] == [Start(p), Hold(msec)];
    assert calls[..2][1..] == [Hold(msec)] && calls[..2][1..][1..] == [];
    RunStep(s, calls[..2]);
    var s1 := Apply(s, Start(p)).value;
    RunStep(s1, calls[..2][1..]);
    EmptyRun(Apply(s1, Hold(msec)).value, calls[..2][1..][1..]);
    assert Run(s, calls[..2]).value.segs == [] + Holds(msec) == Holds(msec);
    RunFaithful(s, calls[..2]);
    RunFaithful(Run(s, calls[..2]).value, calls[2..]);
    HoldCost(msec);
    AddedHolds(s, Run(s, calls[..2]).value, msec, Run(s, calls).value.segs);
  }

  /** Before the first segments are over, which rest, any player shows the start. */
  lemma StillFirst(a: Axis, scale: nat, p: real, segs: seq<Segment>, n: nat, end: nat, t: real, k: nat)
    requires Rests(segs, 0, n) && k <= |segs| && Sum(Durations(segs[..n])) == end
    requires 0.0 <= t < end as real / 1000.0
    ensures var time := Timeline.Finite(t);
            TrajectoryMotion.FromPiece(a, scale, p, segs, Timeline.Land(Durations(segs), k, time), time) == p
  {
    hide Sum, TrajectoryMotion.FromPiece, Timeline.Land, Timeline.Contains, TrajectoryMotion.Before, Durations;
    var ds := Durations(segs);
    DurationsOfPrefix(segs, n);
    Timeline.LandContains(ds, k, Timeline.Finite(t));
    ClipLater(Timeline.Finite(t));
    var i := Timeline.Land(ds, k, Timeline.Finite(t));
    StartIsSum(ds, n);
    if i >= n { NotYet(ds, n, i, t); }
    StaysBefore(a, scale, p, segs, 0, n, i);
    FirstBefore(a, scale, p, segs);
    RestingShows(a, scale, p, segs, i, Timeline.Finite(t));
  }

  lemma FirstBefore(a: Axis, scale: nat, p: real, segs: seq<Segment>)
    ensures TrajectoryMotion.Before(a, scale, p, segs, 0) == p
  {
  }

  lemma NotYet(ds: seq<nat>, n: nat, i: nat, t: real)
    requires n <= i <= |ds| && t < Timeline.Sec(Timeline.StartMsec(ds, n))
    ensures !Timeline.Contains(ds, i, Timeline.Finite(t))
  {
    hide Timeline.StartMsec;
    Timeline.StartMonotone(ds, n, i);
  }

  /** When no axis is moved in no time: after the wait, the neck and the action, in that order, it is
      at the quantised start, the top of the neck and the goal, whatever segment is cached. */
  lemma FlightPasses(e: Entry, start: Point, scale: nat, s: Sketch, a: Axis, k: nat)
    requires Flies(e, start, scale, s) && k <= |s.segs| && NoInstantLines(scale, CallsOf(e, start), a)
    ensures |s.start| == 4
    ensures var wait := Msec(HoldSec(e));
            var neck := Msec(e.preNeckDuration);
            var action := if e.action == Land then 0 else Msec(e.duration);
            && Seen(scale, s, a, k, wait) == Quantised(start, scale).On(a)
            && Seen(scale, s, a, k, wait + neck) == Quantised(start.(z := start.z + e.preNeck), scale).On(a)
            && Seen(scale, s, a, k, wait + neck + action) == Quantised(Goal(e, start), scale).On(a)
  {
    hide Run, Quantised, StartPoint, Seen, Sum, Bytes, ReadAll, NoInstantLines, Proper, Msec, HoldSec, LastOf, RunTime;
    FlightEnds(e, start, scale, s);
    var first := [Start(start), Hold(Msec(HoldSec(e)))];
    var neck, action, post := NeckCalls(e, start), ActionCalls(e, start), PostCalls(e);
    Prefixes(e, start);
    AtCall(e, start, scale, s, a, k, 2, first);
    AtCall(e, start, scale, s, a, k, 2 + |neck|, first + neck);
    AtCall(e, start, scale, s, a, k, 2 + |neck| + |action|, first + neck + action);
  }

  /** What a player with segment k cached shows after so many milliseconds. */
  function Seen(scale: nat, s: Sketch, a: Axis, k: nat, msec: nat): real
    requires |s.start| == 4 && k <= |s.segs|
  {
    var t := Timeline.Finite(msec as real / 1000.0);
    TrajectoryMotion.FromPiece(a, scale, StartPoint(scale, s.start).On(a), s.segs,
                               Timeline.Land(Durations(s.segs), k, t), t)
  }

  lemma AtCall(e: Entry, start: Point, scale: nat, s: Sketch, a: Axis, k: nat, i: nat, prefix: seq<Call>)
    requires Flies(e, start, scale, s) && k <= |s.segs| && NoInstantLines(scale, CallsOf(e, start), a)
    requires 2 <= i <= |CallsOf(e, start)| && prefix == CallsOf(e, start)[..i]
    ensures |s.start| == 4 && Seen(scale, s, a, k, RunTime(prefix)) == Quantised(LastOf(ORIGIN, prefix), scale).On(a)
  {
    hide Run, Quantised, StartPoint, Sum, Bytes, ReadAll, NoInstantLines, Proper, Msec, HoldSec, LastOf, RunTime,
      TrajectoryMotion.FromPiece, Timeline.Land, Durations;
    var calls := CallsOf(e, start);
    forall j | i <= j < |calls| ensures !calls[j].Start? {}
    RunSplit(New(scale, false), calls, i);
    BuiltTrajectoryPlays(scale, false, calls, i, a, k);
    RunLast(New(scale, false), prefix);
    FlightEnds(e, start, scale, s);
  }

  lemma Prefixes(e: Entry, start: Point)
    requires Plausible(e)
    ensures var first := [Start(start), Hold(Msec(HoldSec(e)))];
            var neck, action, calls := NeckCalls(e, start), ActionCalls(e, start), CallsOf(e, start);
            && calls[..2] == first && calls[..2 + |neck|] == first + neck
            && calls[..2 + |neck| + |action|] == first + neck + action
            && LastOf(ORIGIN, first) == start && RunTime(first) == Msec(HoldSec(e))
            && LastOf(ORIGIN, first + neck) == NeckPoint(e, start)
            && RunTime(first + neck) == Msec(HoldSec(e)) + Msec(e.preNeckDuration)
            && LastOf(ORIGIN, first + neck + action) == Goal(e, start)
            && RunTime(first + neck + action)
               == Msec(HoldSec(e)) + Msec(e.preNeckDuration) + (if e.action == Land then 0 else Msec(e.duration))
  {
    var first := [Start(start), Hold(Msec(HoldSec(e)))];
    var neck, action := NeckCalls(e, start), ActionCalls(e, start);
    assert !NeckUsed(e) ==> Msec(e.preNeckDuration) == 0;
    WithoutNeck(e, start);
    hide Msec, HoldSec;
    FirstCalls(ORIGIN, start, Msec(HoldSec(e)));
    LastOfConcat(ORIGIN, first, neck);
    LastOfConcat(ORIGIN, first + neck, action);
    OneCall(start, NeckPoint(e, start), Msec(e.preNeckDuration));
    OneCall(NeckPoint(e, start), Goal(e, start), Msec(e.duration));
    GoalWithoutTarget(e, start);
  }

  // ---- converted entries fly ----

  lemma {:induction false} RunAccepted(s: Sketch, calls: seq<Call>)
    requires s.scale > 0 && PointFits(s.last, s.scale) && Settled(calls, 0)
    requires forall j :: 0 <= j < |calls| ==> CallFits(calls[j], s.scale)
    ensures Run(s, calls).Some?
    decreases |calls|
  {
    hide PointFits, Lines, Holds, Writable;
    if calls != [] {
      AcceptedIff(s, calls[0]);
      AppliedScale(s, calls[0]);
      AppliedLast(s, calls[0]);
      var rest := calls[1..];
      forall j | 0 <= j < |rest| ensures CallFits(rest[j], s.scale) && !rest[j].Start? {
        assert rest[j] == calls[j + 1];
      }
      RunAccepted(Apply(s, calls[0]).value, rest);
    }
  }

  /** An entry that is converted with success flies. */
  lemma ConvertedFlies(e: Entry, start: Point)
    requires Plausible(e) && Verdict(e, start) == Success
    ensures ScaleFor(e, start).Some? && 0 < ScaleFor(e, start).value <= MAX_SCALE
    ensures Run(New(ScaleFor(e, start).value, false), CallsOf(e, start)).Some?
  {
    hide ScaleFor, SecondsStatus, HoldSec, Msec, NeckUsed, PointFits, Fits, Run, Plausible, NeckPoint, Goal;
    ScaleForFits(e, start);
    var scale := ScaleFor(e, start).value;
    var calls := CallsOf(e, start);
    var rest := calls[1..];
    forall j | 0 <= j < |rest| ensures CallFits(rest[j], scale) && !rest[j].Start? {
      assert rest[j] == calls[j + 1];
    }
    AcceptedStart(scale, start);
    RunAccepted(Apply(New(scale, false), Start(start)).value, rest);
    RunStep(New(scale, false), calls);
  }

  lemma AcceptedStart(scale: nat, start: Point)
    requires scale > 0 && PointFits(start, scale)
    ensures Apply(New(scale, false), Start(start)).Some?
    ensures var s := Apply(New(scale, false), Start(start)).value; s.scale == scale && s.last == start
  {
    hide PointFits, Raw;
  }

  // ---- an example ----

  const EXAMPLE_ENTRY := Entry(Number(15.0), GoToKeepingAltitude, Number(50.0), 30000.0, 40000.0, 0.0, Number(0.0),
                               Number(5.0), 0.0, Number(0.0))

  const EXAMPLE_START := Point(15000.0, 25000.0, 20000.0, 59.0)

  lemma ExampleFlies()
    ensures ScaleFor(EXAMPLE_ENTRY, EXAMPLE_START) == Some(2) && Verdict(EXAMPLE_ENTRY, EXAMPLE_START) == Success
    ensures Run(New(2, false), CallsOf(EXAMPLE_ENTRY, EXAMPLE_START)).Some?
    ensures Flies(EXAMPLE_ENTRY, EXAMPLE_START, 2, Run(New(2, false), CallsOf(EXAMPLE_ENTRY, EXAMPLE_START)).value)
  {
    ExampleVerdict();
    hide Verdict, ScaleFor, CallsOf, Run;
    ConvertedFlies(EXAMPLE_ENTRY, EXAMPLE_START);
  }

  lemma ExampleVerdict()
    ensures Plausible(EXAMPLE_ENTRY)
    ensures ScaleFor(EXAMPLE_ENTRY, EXAMPLE_START) == Some(2) && Verdict(EXAMPLE_ENTRY, EXAMPLE_START) == Success
  {
    assert 40000.0 / 32767.0 > 1.0 && 40000.0 / 32767.0 <= 2.0;
    assert ScaleFor(EXAMPLE_ENTRY, EXAMPLE_START) == Some(2);
    assert 20000.0 / 2.0 == 10000.0;
  }

  lemma ExampleCalls()
    ensures CallsOf(EXAMPLE_ENTRY, EXAMPLE_START)
            == [Start(EXAMPLE_START), Hold(15000), Line(Point(30000.0, 40000.0, 20000.0, 59.0), 50000), Hold(5000)]
  {
  }

  /** Going to (30 m, 40 m) at 15 s in 50 s, and waiting there for 5 s: it takes 70 s in all, and at
      40 s the vehicle is half way. */
  lemma ExampleFlight(k: nat)
    requires Run(New(2, false), CallsOf(EXAMPLE_ENTRY, EXAMPLE_START)).Some?
    requires k <= |Run(New(2, false), CallsOf(EXAMPLE_ENTRY, EXAMPLE_START)).value.segs|
    ensures var s := Run(New(2, false), CallsOf(EXAMPLE_ENTRY, EXAMPLE_START)).value;
            && |s.start| == 4 && Sum(Durations(s.segs)) == 70000
            && Seen(2, s, X, k, 40000) == 22500.0 && Seen(2, s, Y, k, 40000) == 32500.0
            && Seen(2, s, Z, k, 40000) == 20000.0
  {
    hide Run, Quantised, StartPoint, Durations, Sum, TrajectoryMotion.FromPiece, Timeline.Land, NoInstantLines, CallsOf;
    ExampleFlies();
    ExampleCalls();
    var calls := CallsOf(EXAMPLE_ENTRY, EXAMPLE_START);
    FlightTime(EXAMPLE_ENTRY, EXAMPLE_START, 2, Run(New(2, false), calls).value);
    assert calls[..2] == [Start(EXAMPLE_START), Hold(15000)];
    FirstCalls(ORIGIN, EXAMPLE_START, 15000);
    forall a: Axis ensures NoInstantLines(2, calls, a) { NoInstantLine(calls, a); }
    ExamplePoints();
    LinePlaysStraight(2, false, calls, X, 2, 0.5, k);
    LinePlaysStraight(2, false, calls, Y, 2, 0.5, k);
    LinePlaysStraight(2, false, calls, Z, 2, 0.5, k);
  }

  lemma NoInstantLine(calls: seq<Call>, a: Axis)
    requires forall i :: 0 <= i < |calls| ==> calls[i].Line? ==> calls[i].duration > 0
    ensures NoInstantLines(2, calls, a)
  {
  }

  lemma ExamplePoints()
    ensures var p, q := Quantised(EXAMPLE_START, 2), Quantised(Point(30000.0, 40000.0, 20000.0, 59.0), 2);
            p.x == 15000.0 && p.y == 25000.0 && p.z == 20000.0 && q.x == 30000.0 && q.y == 40000.0 && q.z == 20000.0
  {
    hide Tenths;
    assert 15000.0 / 2.0 == 7500.0 && 25000.0 / 2.0 == 12500.0 && 20000.0 / 2.0 == 10000.0;
    assert 30000.0 / 2.0 == 15000.0 && 40000.0 / 2.0 == 20000.0;
  }
}
