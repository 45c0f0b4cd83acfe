// From an entry of a return-to-home plan to a trajectory: a scale is chosen up front, and with
// it every later write succeeds.
module RthTrajectories {
  import opened Basics
  import opened Parsing
  import opened Buffers
  import opened TrajectoryFormat
  import opened Drawing
  import opened BuilderRuns
  import opened TrajectoryBuilding
  import opened RthPlans
  import Timeline
  import TrajectoryPlayback

  // ---- the scale ----

  const MAX_SCALE: nat := 127

  function Ceil(x: real): int { -((-x).Floor) }

  function MaxAbs(x: real, y: real, z: real): (m: real)
    ensures m >= AbsReal(x) && m >= AbsReal(y) && m >= AbsReal(z)
  {
    var m := AbsReal(x);
    var n := if AbsReal(y) > m then AbsReal(y) else m;
    if AbsReal(z) > n then AbsReal(z) else n
  }

  function Limit(scale: nat): real { (scale * INT16_MAX) as real }

  /** The coordinate can be stored with this scale, with room to spare below. */
  predicate Within(c: real, scale: nat) { AbsReal(c) <= Limit(scale) }

  /** The scale after a point was taken into account; None if no scale is large enough. */
  function ScaleAfter(scale: nat, x: real, y: real, z: real): Option<nat> {
    var s := if scale == 0 then 1 else scale;
    if MaxAbs(x, y, z) > Limit(s) then
      var n := Ceil(MaxAbs(x, y, z) / INT16_MAX as real);
      if n <= MAX_SCALE && n >= 0 then Some(n) else None
    else Some(s)
  }

  lemma CeilFits(m: real, n: int)
    requires m >= 0.0 && n == Ceil(m / INT16_MAX as real)
    ensures n >= 0 && m <= (n * INT16_MAX) as real
    ensures m > 0.0 ==> m > ((n - 1) * INT16_MAX) as real
  {
    var q := m / 32767.0;
    assert n as real - 1.0 < q <= n as real;
    assert (n * INT16_MAX) as real == n as real * 32767.0;
    assert ((n - 1) * INT16_MAX) as real == (n as real - 1.0) * 32767.0;
  }

  /** The new scale holds the point and everything that the old one held, no smaller one would
      do, and it is refused exactly when the largest scale does not suffice. */
  lemma ScaleAfterFits(scale: nat, x: real, y: real, z: real)
    requires scale <= MAX_SCALE
    ensures match ScaleAfter(scale, x, y, z)
            case Some(s) =>
              1 <= s <= MAX_SCALE && s >= scale
              && Within(x, s) && Within(y, s) && Within(z, s)
              && (s > scale && s > 1 ==> MaxAbs(x, y, z) > Limit(s - 1))
            case None => MaxAbs(x, y, z) > Limit(MAX_SCALE)
  {
    var s, m := if scale == 0 then 1 else scale, MaxAbs(x, y, z);
    if m > Limit(s) {
      var n := Ceil(m / INT16_MAX as real);
      CeilFits(m, n);
      LargerScale(n, s);
    }
  }

  lemma LargerScale(n: int, s: nat)
    requires n >= 0
    ensures (n * INT16_MAX) as real > Limit(s) ==> n > s
    ensures n > MAX_SCALE ==> ((n - 1) * INT16_MAX) as real >= Limit(MAX_SCALE)
  {
  }

  lemma WithinMore(c: real, s: nat, t: nat)
    requires Within(c, s) && s <= t
    ensures Within(c, t)
  {
  }

  /** A coordinate within the limit is never refused by the builder. */
  lemma WithinFits(c: real, scale: nat)
    requires scale > 0 && Within(c, scale)
    ensures Fits(c, scale)
  {
    var q := c / scale as real;
    assert (scale * INT16_MAX) as real == scale as real * 32767.0;
    QuotientWithin(c, scale as real);
  }

  lemma QuotientWithin(c: real, s: real)
    requires s > 0.0 && -(s * 32767.0) <= c <= s * 32767.0
    ensures -32767.0 <= c / s <= 32767.0
  {
  }

  /** Updates a scale for a point. */
  method ScaleUpdate(scale: nat, x: real, y: real, z: real) returns (status: Status, r: nat)
    requires scale <= MAX_SCALE
    ensures match ScaleAfter(scale, x, y, z)
            case Some(s) => status == Success && r == s
            case None => status == EOverflow
  {
    r := scale;
    if r == 0 { r := 1; }
    var max := (r * INT16_MAX) as real;
    var maxCoord := AbsReal(x);
    if AbsReal(y) > maxCoord { maxCoord := AbsReal(y); }
    if AbsReal(z) > maxCoord { maxCoord := AbsReal(z); }
    if maxCoord > max {
      var newScale := Ceil(maxCoord / INT16_MAX as real);
      CeilFits(maxCoord, newScale);
      if newScale <= MAX_SCALE {
        r := newScale;
      } else {
        return EOverflow, r;
      }
    }
    status := Success;
  }

  // ---- durations ----

  /** Milliseconds of a number of seconds. */
  function Msec(sec: Float): nat {
    if sec.Number? && sec.x >= 0.0 then (sec.x * 1000.0).Floor else 0
  }

  predicate MsecFits(sec: real) { sec <= Timeline.UINT32_MAX as real / 1000.0 }

  /** What converting a number of seconds reports. */
  function SecondsStatus(sec: Float): Status {
    match sec
    case NaN => EInval
    case Infinity(negative) => if negative then EInval else EOverflow
    case Number(x) => if x < 0.0 then EInval else if MsecFits(x) then Success else EOverflow
  }

  predicate Convertible(sec: Float) { SecondsStatus(sec) == Success }

  /** A duration in seconds becomes whole milliseconds, rounded down. */
  method DurationFromSeconds(d: Float) returns (status: Status, msec: nat)
    ensures status == SecondsStatus(d)
    ensures status == Success <==> d.Number? && 0.0 <= d.x * 1000.0 <= 4294967295.0
    ensures status == EOverflow <==> d == Infinity(false) || (d.Number? && d.x * 1000.0 > 4294967295.0)
    ensures status == Success || status == EOverflow || status == EInval
    ensures status == Success ==>
              msec == Msec(d) && msec <= Timeline.UINT32_MAX
              && msec as real <= d.x * 1000.0 < msec as real + 1.0
  {
    msec := 0;
    if d.NaN? || (d.Infinity? && d.negative) || (d.Number? && d.x < 0.0) {
      return EInval, msec;
    }
    if d.Infinity? || d.x > Timeline.UINT32_MAX as real / 1000.0 {
      return EOverflow, msec;
    }
    msec := (d.x * 1000.0).Floor;
    status := Success;
  }

  // ---- lines within the limits ----

  lemma BetweenFits(a: real, b: real, scale: nat)
    requires scale > 0 && Fits(a, scale) && Fits(b, scale)
    ensures Fits((a + b) / 2.0, scale)
  {
    var s := scale as real;
    QuotientMean(a, b, s);
  }

  lemma QuotientMean(a: real, b: real, s: real)
    requires s > 0.0
    ensures a / s <= (a + b) / 2.0 / s <= b / s || b / s <= (a + b) / 2.0 / s <= a / s
  {
    if a <= b { Divided(a, (a + b) / 2.0, s); Divided((a + b) / 2.0, b, s); }
    else { Divided(b, (a + b) / 2.0, s); Divided((a + b) / 2.0, a, s); }
  }

  lemma Divided(a: real, b: real, s: real)
    requires s > 0.0 && a <= b
    ensures a / s <= b / s
  {
  }

  /** From a point that fits, a line can be written, however often it is cut, exactly if its
      target fits. */
  lemma {:induction false} LineWritableIff(last: Point, target: Point, duration: nat, scale: nat)
    requires scale > 0 && PointFits(last, scale)
    ensures Writable(last, target, duration, scale) <==> PointFits(target, scale)
    decreases duration
  {
    hide Fits;
    if duration > MAX_DURATION_MSEC {
      var m, half := Midpoint(last, target), duration / 2;
      if PointFits(target, scale) {
        BetweenFits(last.x, target.x, scale);
        BetweenFits(last.y, target.y, scale);
        BetweenFits(last.z, target.z, scale);
      }
      LineWritableIff(last, m, half, scale);
      if PointFits(m, scale) { LineWritableIff(m, target, duration - half, scale); }
    }
  }

  // ---- the conversion ----

  predicate WholeSeconds(sec: Float) { sec.Number? && sec.x >= 0.0 && sec.x == sec.x.Floor as real }

  /** An entry as the evaluation of a plan returns it: only an action with a neck has one, and no
      duration is negative or anything but a number. */
  predicate Plausible(e: Entry) {
    e.timeSec.Number?
    && WholeSeconds(e.duration) && WholeSeconds(e.preDelay) && WholeSeconds(e.postDelay)
    && WholeSeconds(e.preNeckDuration)
    && (HasNeck(e.action) || (e.preNeck == 0.0 && e.preNeckDuration == Number(0.0)))
  }

  /** Every entry that the evaluation of a plan returns is of this kind, whatever the bytes. */
  lemma EvaluatedEntriesArePlausible(bytes: seq<Byte>, query: real)
    requires |bytes| >= RthPlans.HEADER_LENGTH && Evaluate(bytes, query).Answer?
    ensures Plausible(Evaluate(bytes, query).entry)
  {
    hide SearchFrom, PointOf, NumPoints;
    var p := SearchOf(bytes, query).p;
    if query >= 0.0 {
      SearchPlausible(Initial(query), bytes[0] % 128, bytes, EntriesOffset(NumPoints(bytes)),
                      RthPlans.Count(bytes), query);
    }
    HandedPlausible(p, Evaluate(bytes, query).entry.targetX, Evaluate(bytes, query).entry.targetY);
  }

  lemma HandedPlausible(p: Progress, x: real, y: real)
    requires PlausibleProgress(p)
    ensures Plausible(Handed(p, x, y))
  {
  }

  predicate PlausibleProgress(p: Progress) { HasNeck(p.action) || (p.neck == 0.0 && p.neckDuration == 0) }

  lemma {:induction false} SearchPlausible(p: Progress, scale: nat, bytes: seq<Byte>, at: nat, count: nat, query: real)
    requires PlausibleProgress(p)
    ensures var o := SearchFrom(p, scale, bytes, at, count, query); o.Found? ==> PlausibleProgress(o.p)
    decreases count
  {
    hide ReadEntry;
    if count > 0 {
      var r := ReadEntry(bytes, at, p.action, p.time, MAX_DURATION);
      if r.Got? { SearchPlausible(Next(p, scale, r.value), scale, bytes, r.next, count - 1, query); }
    }
  }

  function Then(scale: Option<nat>, needed: bool, x: real, y: real, z: real): Option<nat> {
    if scale.None? || !needed then scale else ScaleAfter(scale.value, x, y, z)
  }

  /** The scale of the trajectory; None if some coordinate is too large. */
  function ScaleFor(e: Entry, start: Point): Option<nat> {
    var a := ScaleAfter(1, start.x, start.y, start.z);
    var b := Then(a, HasNeck(e.action), 0.0, 0.0, start.z + e.preNeck);
    var c := Then(b, HasTarget(e.action), e.targetX, e.targetY, 0.0);
    Then(c, e.action == GoToWithAltitude, 0.0, 0.0, e.altitude)
  }

  /** The scale has room for everything that the conversion looks at. */
  predicate Roomy(e: Entry, start: Point, scale: nat) {
    Within(start.x, scale) && Within(start.y, scale) && Within(start.z, scale)
    && (e.action == GoToWithAltitude ==> Within(start.z + e.preNeck, scale) && Within(e.altitude, scale))
    && (e.action != Land ==> Within(e.targetX, scale) && Within(e.targetY, scale))
  }

  /** It is the least such scale from 1 to 127, and there is none exactly if none has room. */
  lemma ScaleForLeast(e: Entry, start: Point)
    ensures match ScaleFor(e, start)
            case Some(s) => 1 <= s <= 127 && Roomy(e, start, s) && (s > 1 ==> !Roomy(e, start, s - 1))
            case None => !Roomy(e, start, 127)
  {
    hide ScaleAfter, Within;
    var a := ScaleAfter(1, start.x, start.y, start.z);
    LeastAfter(1, start.x, start.y, start.z);
    var b := Then(a, HasNeck(e.action), 0.0, 0.0, start.z + e.preNeck);
    if a.Some? { LeastAfter(a.value, 0.0, 0.0, start.z + e.preNeck); }
    var c := Then(b, HasTarget(e.action), e.targetX, e.targetY, 0.0);
    if b.Some? { LeastAfter(b.value, e.targetX, e.targetY, 0.0); }
    if c.Some? { LeastAfter(c.value, 0.0, 0.0, e.altitude); }
    StaysWithin();
  }

  /** A scale that grows holds the point, and the one before it does not. */
  lemma LeastAfter(scale: nat, x: real, y: real, z: real)
    requires 1 <= scale <= MAX_SCALE
    ensures match ScaleAfter(scale, x, y, z)
            case Some(s) =>
              scale <= s <= MAX_SCALE && Within(x, s) && Within(y, s) && Within(z, s)
              && (s > scale ==> !(Within(x, s - 1) && Within(y, s - 1) && Within(z, s - 1)))
            case None => !(Within(x, MAX_SCALE) && Within(y, MAX_SCALE) && Within(z, MAX_SCALE))
  {
    hide ScaleAfter, Limit;
    ScaleAfterFits(scale, x, y, z);
    AllWithinIff(x, y, z);
  }

  lemma AllWithinIff(x: real, y: real, z: real)
    ensures forall s: nat :: Within(x, s) && Within(y, s) && Within(z, s) <==> MaxAbs(x, y, z) <= Limit(s)
  {
    hide Limit;
  }

  lemma StaysWithin()
    ensures Within(0.0, 127)
    ensures forall c: real, s: nat, t: nat :: Within(c, s) && s <= t ==> Within(c, t)
    ensures forall s: nat :: Within(0.0, s)
  {
    hide Within;
    assert Within(0.0, 127) by { ZeroWithin(127); }
    forall c: real, s: nat, t: nat | Within(c, s) && s <= t ensures Within(c, t) { WithinMore(c, s, t); }
    forall s: nat ensures Within(0.0, s) { ZeroWithin(s); }
  }

  lemma ZeroWithin(s: nat)
    ensures Within(0.0, s)
  {
  }

  function NeckPoint(e: Entry, start: Point): Point { start.(z := start.z + e.preNeck) }

  /** Where the vehicle goes. */
  function Goal(e: Entry, start: Point): Point {
    match e.action
    case Land => NeckPoint(e, start)
    case GoToKeepingAltitude => NeckPoint(e, start).(x := e.targetX, y := e.targetY)
    case GoToWithAltitude => NeckPoint(e, start).(x := e.targetX, y := e.targetY, z := e.altitude)
  }

  /** The comparisons with zero: nothing is less or greater than a NaN, and a NaN is not zero. */
  predicate Below(f: Float) { (f.Number? && f.x < 0.0) || (f.Infinity? && f.negative) }

  predicate Above(f: Float) { (f.Number? && f.x > 0.0) || (f.Infinity? && !f.negative) }

  function Plus(a: Float, b: Float): Float {
    if a.NaN? || b.NaN? then NaN
    else if a.Infinity? then if b.Infinity? && b != a then NaN else a
    else if b.Infinity? then b
    else Number(a.x + b.x)
  }

  predicate NeckUsed(e: Entry) { e.preNeck != 0.0 || e.preNeckDuration != Number(0.0) }

  /** The time before the action starts: the delay counts from the entry's time. */
  function HoldSec(e: Entry): Float {
    Plus(if Below(e.timeSec) then Number(0.0) else e.timeSec, if Above(e.preDelay) then e.preDelay else Number(0.0))
  }

  lemma WholeMsec(x: real)
    requires x >= 0.0
    ensures Msec(Number(x)) == (1000.0 * x).Floor
  {
    assert x * 1000.0 == 1000.0 * x;
  }

  function WaitSec(e: Entry): real
    requires e.timeSec.Number? && e.preDelay.Number?
  {
    (if e.timeSec.x < 0.0 then 0.0 else e.timeSec.x) + e.preDelay.x
  }

  lemma HoldIs(e: Entry)
    requires e.timeSec.Number? && e.preDelay.Number? && e.preDelay.x >= 0.0
    ensures HoldSec(e) == Number(WaitSec(e)) && WaitSec(e) >= 0.0
  {
    var t := if Below(e.timeSec) then Number(0.0) else e.timeSec;
    var d := if Above(e.preDelay) then e.preDelay else Number(0.0);
    assert t == Number(if e.timeSec.x < 0.0 then 0.0 else e.timeSec.x);
    assert d == Number(e.preDelay.x);
    SumOfNumbers(t.x, d.x);
    hide Above, Below, Plus;
  }

  lemma SumOfNumbers(a: real, b: real)
    ensures Plus(Number(a), Number(b)) == Number(a + b)
  {
  }

  lemma HoldMsec(e: Entry)
    requires Plausible(e)
    ensures Msec(HoldSec(e)) == (1000.0 * WaitSec(e)).Floor
  {
    PlainNumbers(e);
    hide Msec, HoldSec, WholeSeconds, Plausible;
    HoldIs(e);
    hide WaitSec;
    WholeMsec(WaitSec(e));
  }

  lemma PlainNumbers(e: Entry)
    requires Plausible(e)
    ensures e.timeSec.Number? && e.preDelay.Number? && e.preDelay.x >= 0.0
  {
  }

  predicate DurationsFit(e: Entry) {
    Convertible(HoldSec(e))
    && (NeckUsed(e) ==> Convertible(e.preNeckDuration))
    && (HasTarget(e.action) ==> Convertible(e.duration))
    && (Above(e.postDelay) ==> Convertible(e.postDelay))
  }

  function NeckCalls(e: Entry, start: Point): seq<Call> {
    if NeckUsed(e) then [Line(NeckPoint(e, start), Msec(e.preNeckDuration))] else []
  }

  function ActionCalls(e: Entry, start: Point): seq<Call> {
    if HasTarget(e.action) then [Line(Goal(e, start), Msec(e.duration))] else []
  }

  function PostCalls(e: Entry): seq<Call> { if Above(e.postDelay) then [Hold(Msec(e.postDelay))] else [] }

  /** The builder calls that an entry turns into. */
  function CallsOf(e: Entry, start: Point): seq<Call> {
    [Start(start), Hold(Msec(HoldSec(e)))] + NeckCalls(e, start) + ActionCalls(e, start) + PostCalls(e)
  }

  /** The chosen scale has room for the start and, where the top of the neck fits, for every point
      of the trajectory. Where only an action with a neck has one, the top does fit. */
  lemma ScaleForFits(e: Entry, start: Point)
    requires ScaleFor(e, start).Some?
    ensures var s := ScaleFor(e, start).value;
            1 <= s <= MAX_SCALE && PointFits(start, s)
            && (Fits(start.z + e.preNeck, s) <==> PointFits(NeckPoint(e, start), s))
            && (Fits(start.z + e.preNeck, s) ==> PointFits(Goal(e, start), s))
            && (Plausible(e) ==> Fits(start.z + e.preNeck, s))
  {
    hide ScaleAfter, Within, Fits;
    var a := ScaleAfter(1, start.x, start.y, start.z);
    ScaleAfterFits(1, start.x, start.y, start.z);
    var b := Then(a, HasNeck(e.action), 0.0, 0.0, start.z + e.preNeck);
    ScaleAfterFits(a.value, 0.0, 0.0, start.z + e.preNeck);
    var c := Then(b, HasTarget(e.action), e.targetX, e.targetY, 0.0);
    ScaleAfterFits(b.value, e.targetX, e.targetY, 0.0);
    ScaleAfterFits(c.value, 0.0, 0.0, e.altitude);
    var s := ScaleFor(e, start).value;
    FitsLater(start.x, a.value, s);
    FitsLater(start.y, a.value, s);
    FitsLater(start.z, a.value, s);
    if HasNeck(e.action) { FitsLater(start.z + e.preNeck, b.value, s); }
    if HasTarget(e.action) {
      FitsLater(e.targetX, c.value, s);
      FitsLater(e.targetY, c.value, s);
    }
    if e.action == GoToWithAltitude { FitsLater(e.altitude, s, s); }
  }

  lemma FitsLater(c: real, s: nat, t: nat)
    requires 0 < s <= t && Within(c, s)
    ensures Fits(c, t)
  {
    hide Within, Fits;
    WithinMore(c, s, t);
    WithinFits(c, t);
  }

  lemma BoundSmall(duration: nat)
    requires duration < UINT32_MODULUS
    ensures Bound(duration) <= 2_000_000
  {
  }

  /** A builder at work on a trajectory: what was called so far, and where it stands. */
  ghost predicate Working(b: TrajectoryBuilder, scale: nat, calls: seq<Call>, s: Sketch)
    reads b, b.buffer, b.buffer.store
  {
    0 < scale <= MAX_SCALE && Run(New(scale, false), calls) == Some(s) && b.Draws(s) && Faithful(s)
    && s.scale == scale && PointFits(s.last, scale)
  }

  predicate CallFits(call: Call, scale: nat)
    requires scale > 0
  {
    match call
    case Start(p) => PointFits(p, scale)
    case Line(target, _) => PointFits(target, scale)
    case Hold(_) => true
  }

  lemma AcceptedIff(s: Sketch, call: Call)
    requires 0 < s.scale && PointFits(s.last, s.scale) && (call.Start? ==> s.segs == [])
    ensures Apply(s, call).Some? <==> CallFits(call, s.scale)
  {
    hide Fits, Writable, PointFits;
    if call.Line? { LineWritableIff(s.last, call.target, call.duration, s.scale); }
  }

  /** A call from a point that fits is carried out exactly if it leads to one. */
  method Carry(b: TrajectoryBuilder, call: Call, ghost scale: nat, ghost calls: seq<Call>, ghost s: Sketch)
    returns (status: Status, ghost t: Sketch)
    requires Working(b, scale, calls, s) && CallTime(call) < UINT32_MODULUS && b.buffer.used <= 20_000_000
    requires call.Start? ==> s.segs == []
    modifies b`last, b.buffer, b.buffer.store
    ensures status == if CallFits(call, scale) then Success else EInval
    ensures status == Success ==> Working(b, scale, calls + [call], t) && Apply(s, call) == Some(t)
    ensures b.buffer.used <= old(b.buffer.used) + 2_000_000
    ensures b.buffer.store == old(b.buffer.store) || fresh(b.buffer.store)
  {
    hide Apply, Run, Faithful, PointFits, Bound;
    AcceptedIff(s, call);
    AppliedScale(s, call);
    RunSnoc(New(scale, false), calls, call);
    BoundSmall(CallTime(call));
    status := b.Perform(call, s);
    t := s;
    if status == Success {
      AppliedLast(s, call);
      t := Apply(s, call).value;
    }
  }

  /** The scale of the trajectory, step by step. */
  method ChooseScale(e: Entry, start: Point) returns (status: Status, scale: nat)
    ensures match ScaleFor(e, start)
            case Some(s) => status == Success && scale == s
            case None => status == EOverflow
  {
    hide ScaleAfter;
    ScaleAfterFits(1, start.x, start.y, start.z);
    status, scale := ScaleUpdate(1, start.x, start.y, start.z);
    if status != Success { return; }
    if HasNeck(e.action) {
      ScaleAfterFits(scale, 0.0, 0.0, start.z + e.preNeck);
      status, scale := ScaleUpdate(scale, 0.0, 0.0, start.z + e.preNeck);
      if status != Success { return; }
    }
    if HasTarget(e.action) {
      ScaleAfterFits(scale, e.targetX, e.targetY, 0.0);
      status, scale := ScaleUpdate(scale, e.targetX, e.targetY, 0.0);
      if status != Success { return; }
    }
    if e.action == GoToWithAltitude {
      status, scale := ScaleUpdate(scale, 0.0, 0.0, e.altitude);
    }
  }

  /** The vertical neck before the action. */
  method AddNeck(b: TrajectoryBuilder, e: Entry, start: Point,
                 ghost scale: nat, ghost calls: seq<Call>, ghost s: Sketch)
    returns (status: Status, target: Point, ghost t: Sketch)
    requires Working(b, scale, calls, s) && b.buffer.used <= 10_000_000
    requires PointFits(start, scale)
    modifies b`last, b.buffer, b.buffer.store
    ensures status == if NeckUsed(e) && !Convertible(e.preNeckDuration) then SecondsStatus(e.preNeckDuration)
                      else if PointFits(NeckPoint(e, start), scale) then Success else EInval
    ensures status == Success ==>
              Working(b, scale, calls + NeckCalls(e, start), t)
              && target == if NeckUsed(e) then NeckPoint(e, start) else start
    ensures b.buffer.used <= old(b.buffer.used) + 2_000_000
    ensures b.buffer.store == old(b.buffer.store) || fresh(b.buffer.store)
  {
    hide Working, PointFits, Msec, SecondsStatus;
    target, status, t := start, Success, s;
    assert calls + [] == calls;
    WithoutNeck(e, start);
    if e.preNeck != 0.0 || e.preNeckDuration != Number(0.0) {
      var msec;
      status, msec := DurationFromSeconds(e.preNeckDuration);
      if status != Success { return; }
      target := target.(z := target.z + e.preNeck);
      status, t := Carry(b, Line(target, msec), scale, calls, s);
    }
  }

  /** The way to the goal. */
  method AddAction(b: TrajectoryBuilder, e: Entry, start: Point, from: Point,
                   ghost scale: nat, ghost calls: seq<Call>, ghost s: Sketch)
    returns (status: Status, ghost t: Sketch)
    requires Working(b, scale, calls, s) && b.buffer.used <= 10_000_000
    requires PointFits(Goal(e, start), scale)
    requires from == if NeckUsed(e) then NeckPoint(e, start) else start
    modifies b`last, b.buffer, b.buffer.store
    ensures status == if HasTarget(e.action) then SecondsStatus(e.duration) else Success
    ensures status == Success ==> Working(b, scale, calls + ActionCalls(e, start), t)
    ensures b.buffer.used <= old(b.buffer.used) + 2_000_000
    ensures b.buffer.store == old(b.buffer.store) || fresh(b.buffer.store)
  {
    hide Working, PointFits, Msec, SecondsStatus;
    status, t := Success, s;
    assert calls + [] == calls;
    IsGoal(e, start);
    var msec;
    match e.action
    case Land =>
    case GoToKeepingAltitude =>
      var target := from.(x := e.targetX, y := e.targetY);
      status, msec := DurationFromSeconds(e.duration);
      if status != Success { return; }
      status, t := Carry(b, Line(target, msec), scale, calls, s);
    case GoToWithAltitude =>
      var target := from.(x := e.targetX, y := e.targetY, z := e.altitude);
      status, msec := DurationFromSeconds(e.duration);
      if status != Success { return; }
      status, t := Carry(b, Line(target, msec), scale, calls, s);
  }

  /** The delay after the action. */
  method AddPostDelay(b: TrajectoryBuilder, e: Entry, ghost scale: nat, ghost calls: seq<Call>, ghost s: Sketch)
    returns (status: Status, ghost t: Sketch)
    requires Working(b, scale, calls, s) && b.buffer.used <= 10_000_000
    modifies b`last, b.buffer, b.buffer.store
    ensures status == if Above(e.postDelay) then SecondsStatus(e.postDelay) else Success
    ensures status == Success ==> Working(b, scale, calls + PostCalls(e), t)
    ensures b.buffer.store == old(b.buffer.store) || fresh(b.buffer.store)
  {
    hide Working, PointFits, Msec, SecondsStatus;
    status, t := Success, s;
    assert calls + [] == calls;
    if Above(e.postDelay) {
      var msec;
      status, msec := DurationFromSeconds(e.postDelay);
      if status != Success { return; }
      status, t := Carry(b, Hold(msec), scale, calls, s);
    }
  }

  /** A builder that has its start point and has held still for the given time. */
  method Begin(scale: nat, start: Point, msec: nat)
    returns (b: TrajectoryBuilder, ghost s: Sketch)
    requires 0 < scale <= MAX_SCALE && PointFits(start, scale) && msec < UINT32_MODULUS
    ensures Working(b, scale, [Start(start), Hold(msec)], s) && b.buffer.used <= 5_000_000
    ensures fresh(b) && fresh(b.buffer) && fresh(b.buffer.store)
  {
    hide Working, PointFits;
    var status, builder := TrajectoryBuilder.Create(scale, false);
    b := builder;
    StartsWorking(b, scale);
    s := New(scale, false);
    status, s := Carry(b, Start(start), scale, [], s);
    assert [] + [Start(start)] == [Start(start)];
    status, s := Carry(b, Hold(msec), scale, [Start(start)], s);
    assert [Start(start)] + [Hold(msec)] == [Start(start), Hold(msec)];
  }

  /** What the conversion reports, in the order in which it looks: a coordinate too large for every
      scale, a duration that cannot be converted, a neck too high for the scale that was chosen
      without it. */
  function Verdict(e: Entry, start: Point): Status {
    match ScaleFor(e, start)
    case None => EOverflow
    case Some(scale) =>
      if !Convertible(HoldSec(e)) then SecondsStatus(HoldSec(e))
      else if NeckUsed(e) && !Convertible(e.preNeckDuration) then SecondsStatus(e.preNeckDuration)
      else if scale > 0 && !Fits(start.z + e.preNeck, scale) then EInval
      else if HasTarget(e.action) && !Convertible(e.duration) then SecondsStatus(e.duration)
      else if Above(e.postDelay) then SecondsStatus(e.postDelay)
      else Success
  }

  /** An entry that a plan can evaluate to is refused only for a coordinate too large for every
      scale or a duration too long. */
  lemma PlausibleVerdict(e: Entry, start: Point)
    requires Plausible(e)
    ensures Verdict(e, start) == if ScaleFor(e, start).Some? && DurationsFit(e) then Success else EOverflow
  {
    PlausibleSeconds(e);
    hide ScaleFor, SecondsStatus, HoldSec, Fits;
    if ScaleFor(e, start).Some? { ScaleForFits(e, start); }
  }

  predicate OnlyTooLong(sec: Float) { SecondsStatus(sec) == Success || SecondsStatus(sec) == EOverflow }

  lemma PlausibleSeconds(e: Entry)
    requires Plausible(e)
    ensures OnlyTooLong(HoldSec(e)) && OnlyTooLong(e.preNeckDuration)
    ensures OnlyTooLong(e.duration) && OnlyTooLong(e.postDelay)
  {
  }

  /** A landing with a neck, which no plan evaluates to: the scale is chosen without the neck, and
      the neck does not fit it. */
  lemma NeckDeparts()
    ensures var e := Entry(Number(0.0), Land, Number(0.0), 0.0, 0.0, 0.0, Number(0.0), Number(0.0), 40000.0,
                           Number(1.0));
            ScaleFor(e, ORIGIN) == Some(1) && Verdict(e, ORIGIN) == EInval
  {
    assert 40000.0 / 1.0 == 40000.0;
  }

  /** The builder calls, up to the first that fails. */
  method Compose(e: Entry, start: Point, scale: nat, msec: nat)
    returns (status: Status, b: TrajectoryBuilder, ghost s: Sketch)
    requires ScaleFor(e, start) == Some(scale) && Convertible(HoldSec(e))
    requires msec == Msec(HoldSec(e)) < UINT32_MODULUS
    ensures status == Verdict(e, start) && fresh(b) && fresh(b.buffer)
    ensures status == Success ==> Working(b, scale, CallsOf(e, start), s)
  {
    hide ScaleFor, Run, Msec, SecondsStatus, Goal, Fits, PointFits, NeckPoint, HoldSec, Working,
      NeckCalls, ActionCalls, PostCalls, NeckUsed, Above, HasTarget;
    ScaleForFits(e, start);
    b, s := Begin(scale, start, msec);
    ghost var calls := [Start(start), Hold(msec)];
    var target;
    status, target, s := AddNeck(b, e, start, scale, calls, s);
    if status != Success { return; }
    status, s := AddAction(b, e, start, target, scale, calls + NeckCalls(e, start), s);
    if status != Success { return; }
    status, s := AddPostDelay(b, e, scale, calls + NeckCalls(e, start) + ActionCalls(e, start), s);
  }

  /** The converted time before the action. */
  method HoldTime(e: Entry) returns (status: Status, msec: nat)
    ensures status == SecondsStatus(HoldSec(e))
    ensures status == Success ==> msec == Msec(HoldSec(e)) < UINT32_MODULUS
  {
    hide Msec, SecondsStatus;
    var startTime := if Below(e.timeSec) then Number(0.0) else e.timeSec;
    var preDelay := if Above(e.preDelay) then e.preDelay else Number(0.0);
    status, msec := DurationFromSeconds(Plus(startTime, preDelay));
  }

  /** The trajectory of an entry. Once the scale has been chosen, the durations accepted and the
      neck found to fit, every write succeeds. */
  method TrajectoryFromEntry(e: Entry, start: Point)
    returns (status: Status, trajectory: TrajectoryPlayback.Trajectory?, ghost s: Sketch)
    ensures status == Verdict(e, start)
    ensures Plausible(e) ==>
              status == if ScaleFor(e, start).Some? && DurationsFit(e) then Success else EOverflow
    ensures status == Success <==> trajectory != null
    ensures status == Success ==>
              1 <= ScaleFor(e, start).value <= MAX_SCALE
              && Run(New(ScaleFor(e, start).value, false), CallsOf(e, start)) == Some(s)
              && Proper(s) && trajectory.buffer.Valid() && trajectory.buffer.Contents() == Bytes(s)
              && trajectory.scale == s.scale && trajectory.headerLength == TrajectoryFormat.HEADER_LENGTH
              && trajectory.start == StartPoint(s.scale, s.start)
  {
    hide ScaleFor, Run, Bytes, Msec, HoldSec, SecondsStatus, DurationsFit, CallsOf, Plausible, Working, Fits,
      StartPoint, ReadWords, ReadAll, Decoded, TrajectoryPlayback.IntegerPoint;
    if Plausible(e) { PlausibleVerdict(e, start); }
    trajectory := null;
    s := New(1, false);
    var scale, msec;
    status, scale := ChooseScale(e, start);
    if status != Success { return; }
    status, msec := HoldTime(e);
    if status != Success { return; }
    hide Verdict;
    var b;
    status, b, s := Compose(e, start, scale, msec);
    if status != Success { return; }
    Drawn(b, scale, CallsOf(e, start), s);
    var bytes := b.Finish();
    trajectory := new TrajectoryPlayback.Trajectory.InitFromBytes(bytes);
    ReadBack(s);
  }

  lemma Drawn(b: TrajectoryBuilder, scale: nat, calls: seq<Call>, s: Sketch)
    requires Working(b, scale, calls, s)
    ensures 0 < scale && Run(New(scale, false), calls) == Some(s) && b.Draws(s) && s.scale == scale
  {
  }

  lemma StartsWorking(b: TrajectoryBuilder, scale: nat)
    requires 0 < scale <= MAX_SCALE && b.Draws(New(scale, false))
    ensures Working(b, scale, [], New(scale, false)) && b.buffer.used == TrajectoryFormat.HEADER_LENGTH
  {
    hide Bytes;
    NewFaithful(scale, false);
    assert Run(New(scale, false), []) == Some(New(scale, false));
    NewBytes(scale);
  }

  lemma NewBytes(scale: nat)
    requires 0 < scale <= MAX_SCALE && Proper(New(scale, false))
    ensures |Bytes(New(scale, false))| == TrajectoryFormat.HEADER_LENGTH
  {
  }

  lemma WithoutNeck(e: Entry, start: Point)
    ensures !NeckUsed(e) ==> NeckPoint(e, start) == start
  {
  }

  lemma IsGoal(e: Entry, start: Point)
    ensures var t := if NeckUsed(e) then start.(z := start.z + e.preNeck) else start;
            (e.action == GoToKeepingAltitude ==> Goal(e, start) == t.(x := e.targetX, y := e.targetY))
            && (e.action == GoToWithAltitude ==>
                  Goal(e, start) == t.(x := e.targetX, y := e.targetY, z := e.altitude))
  {
  }

  // ---- what the trajectory does ----

  /** The converted times of an entry together. */
  function TotalMsec(e: Entry): nat {
    Msec(HoldSec(e)) + (if NeckUsed(e) then Msec(e.preNeckDuration) else 0)
    + (if HasTarget(e.action) then Msec(e.duration) else 0)
    + (if Above(e.postDelay) then Msec(e.postDelay) else 0)
  }

  lemma CallsTogether(e: Entry, start: Point, p: Point)
    ensures LastOf(p, CallsOf(e, start)) == Goal(e, start) && RunTime(CallsOf(e, start)) == TotalMsec(e)
  {
    hide Msec, NeckPoint, Goal, HoldSec;
    var first, neck, action, post := [Start(start), Hold(Msec(HoldSec(e)))], NeckCalls(e, start),
                                     ActionCalls(e, start), PostCalls(e);
    LastOfConcat(p, first + neck + action, post);
    LastOfConcat(p, first + neck, action);
    LastOfConcat(p, first, neck);
    FirstCalls(p, start, Msec(HoldSec(e)));
    OneCall(start, NeckPoint(e, start), Msec(e.preNeckDuration));
    OneCall(LastOf(start, neck), Goal(e, start), Msec(e.duration));
    OneCall(LastOf(LastOf(start, neck), action), start, if Above(e.postDelay) then Msec(e.postDelay) else 0);
    GoalWithoutTarget(e, start);
  }

  lemma FirstCalls(p: Point, start: Point, msec: nat)
    ensures LastOf(p, [Start(start), Hold(msec)]) == start && RunTime([Start(start), Hold(msec)]) == msec
  {
    assert [Start(start), Hold(msec)][1..] == [Hold(msec)] && [Hold(msec)][1..] == [];
    OneCall(start, start, msec);
  }

  lemma OneCall(p: Point, q: Point, msec: nat)
    ensures LastOf(p, [Line(q, msec)]) == q && RunTime([Line(q, msec)]) == msec
    ensures LastOf(p, [Hold(msec)]) == p && RunTime([Hold(msec)]) == msec
    ensures LastOf(p, []) == p && RunTime([]) == 0
  {
    assert [Line(q, msec)][1..] == [] && [Hold(msec)][1..] == [];
  }

  lemma GoalWithoutTarget(e: Entry, start: Point)
    ensures !HasTarget(e.action) ==> Goal(e, start) == NeckPoint(e, start)
    ensures !NeckUsed(e) ==> NeckPoint(e, start) == start
  {
  }

  /** The trajectory of an entry starts at the quantised start, ends at the quantised goal and
      lasts exactly as long as its converted times together. */
  lemma ConversionMeaning(e: Entry, start: Point, scale: nat)
    requires 0 < scale <= MAX_SCALE && Run(New(scale, false), CallsOf(e, start)).Some?
    ensures var s := Run(New(scale, false), CallsOf(e, start)).value;
            Proper(s) && StartPoint(scale, s.start) == Quantised(start, scale)
            && Reached(s) == Quantised(Goal(e, start), scale)
            && Sum(Durations(s.segs)) == TotalMsec(e)
  {
    hide Quantised, Decoded, Goal, NeckCalls, ActionCalls, PostCalls, TotalMsec, Sum, Reached, LastOf, RunTime,
      StorableSegment;
    var calls, s0 := CallsOf(e, start), New(scale, false);
    NewFaithful(scale, false);
    RunFaithful(s0, calls);
    RunLast(s0, calls);
    CallsTogether(e, start, s0.last);
    NoSegments();
    StartStays(e, start, scale);
  }

  lemma NoSegments()
    ensures Sum(Durations([])) == 0
  {
  }

  lemma StartStays(e: Entry, start: Point, scale: nat)
    requires 0 < scale && Run(New(scale, false), CallsOf(e, start)).Some?
    ensures var s := Run(New(scale, false), CallsOf(e, start)).value;
            |s.start| == 4 && StartPoint(scale, s.start) == Quantised(start, scale)
  {
    hide Msec, HoldSec, LastOf, Quantised, StartPoint, PointFits, Raw;
    var calls := CallsOf(e, start);
    var rest := calls[1..];
    assert calls[0] == Start(start);
    forall i | 0 <= i < |rest| ensures !rest[i].Start? { assert calls[i + 1] == rest[i]; }
    var s1 := Apply(New(scale, false), calls[0]).value;
    StartQuantised(start, scale);
    RunLast(s1, rest);
  }
}
