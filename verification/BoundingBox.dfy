// The axis-aligned bounding box of a trajectory.
module BoundingBoxes {
  import opened Basics
  import opened Parsing
  import opened TrajectoryFormat
  import opened Timeline
  import opened Bezier
  import opened Polynomials
  import opened Extrema
  import opened TrajectoryMotion
  import opened TrajectoryHistory
  import opened TrajectoryPlayback

  // ---- the numbers are integers ----

  predicate AllInt(xs: seq<real>) { forall i :: 0 <= i < |xs| ==> IsInt(xs[i]) }

  lemma IntSum(x: real, y: real)
    requires IsInt(x) && IsInt(y)
    ensures IsInt(x + y) && IsInt(x - y)
  {
    SumOfInts(x.Floor, y.Floor);
    FloorOfInt(x.Floor + y.Floor);
    FloorOfInt(x.Floor - y.Floor);
  }

  lemma SumOfInts(a: int, b: int)
    ensures a as real + b as real == (a + b) as real && a as real - b as real == (a - b) as real
  {
  }

  lemma FloorOfInt(n: int)
    ensures IsInt(n as real)
  {
  }

  /** Integer control points give integer coefficients. */
  lemma {:induction false} CoefsAreInt(xs: seq<real>)
    requires AllInt(xs) && |xs| >= 1
    ensures AllInt(Coefs(xs))
  {
    hide Coef, IsInt;
    FirstCoef(xs);
    if |xs| > 1 {
      var n := |xs| - 1;
      CoefsAreInt(xs[..n]);
      CoefsAreInt(xs[1..]);
      CoefsRule(xs);
      var p, q := Coefs(xs[..n]), Coefs(xs[1..]);
      IntZero();
      forall j | 0 <= j < |xs| ensures IsInt(Coefs(xs)[j]) {
        var low, high := (p + [0.0])[j], ([0.0] + Sub(q, p))[j];
        if j > 0 { IntSum(q[j - 1], p[j - 1]); }
        IntSum(low, high);
      }
    }
  }

  lemma IntZero()
    ensures IsInt(0.0)
  {
  }

  lemma DecodedIsInt(a: Axis, scale: nat, v: int)
    requires a != Yaw
    ensures IsInt(Decoded(a, scale, v))
  {
  }

  lemma CoefficientsAreInt(a: Axis, scale: nat, from: real, vs: seq<int>)
    requires a != Yaw && IsInt(from)
    ensures AllInt(Coefficients(a, scale, from, vs))
  {
    hide IsInt, Decoded;
    var ps := Points(a, scale, from, vs);
    forall i | 0 <= i < |ps| ensures IsInt(ps[i]) {
      if i > 0 { DecodedIsInt(a, scale, vs[i - 1]); }
    }
    if |ps| == 2 {
      IntSum(ps[1], ps[0]);
      assert (ps[1] - ps[0]) / 1.0 == ps[1] - ps[0];
    } else if |ps| > 2 {
      CoefsAreInt(ps);
      StretchedByOne(Coefs(ps));
      assert 1.0 / 1.0 == 1.0;
    }
  }

  lemma {:induction false} BeforeIsInt(a: Axis, scale: nat, from: real, segs: seq<Segment>, k: nat)
    requires a != Yaw && IsInt(from) && k <= |segs|
    ensures IsInt(Before(a, scale, from, segs, k))
    decreases k
  {
    hide IsInt, Decoded;
    if k > 0 {
      BeforeIsInt(a, scale, from, segs, k - 1);
      var vs := segs[k - 1].On(a);
      if vs != [] { DecodedIsInt(a, scale, vs[|vs| - 1]); }
    }
  }

  /** The polynomials of a trajectory never deceive the comparisons with zero. */
  lemma PiecesAreClean(a: Axis, scale: nat, from: real, segs: seq<Segment>, k: nat)
    requires a != Yaw && IsInt(from) && k < |segs|
    ensures Clean(PieceCoefficients(a, scale, from, segs, k))
  {
    hide IsInt, Coefficients, Clean;
    BeforeIsInt(a, scale, from, segs, k);
    CoefficientsAreInt(a, scale, Before(a, scale, from, segs, k), segs[k].On(a));
    IntegersClean(PieceCoefficients(a, scale, from, segs, k));
  }

  // ---- the box ----

  /** The degree of every segment is at most three: what the search for extrema handles. */
  ghost predicate Handled(a: Axis, scale: nat, from: real, segs: seq<Segment>) {
    forall k :: 0 <= k < |segs| ==> Trim(PieceCoefficients(a, scale, from, segs, k), 2) <= 4
  }

  function Zeros(n: nat): (r: seq<real>)
    ensures |r| == n
  {
    seq(n, i => 0.0)
  }

  lemma {:induction false} ZeroCoefs(n: nat)
    requires n >= 1
    ensures Coefs(Zeros(n)) == Zeros(n)
  {
    hide Coef;
    FirstCoef(Zeros(n));
    if n > 1 {
      ZeroCoefs(n - 1);
      assert Zeros(n)[..n - 1] == Zeros(n - 1) && Zeros(n)[1..] == Zeros(n - 1);
      CoefsRule(Zeros(n));
    }
  }

  /** A curve that leaves zero with its last control point alone is a pure power. */
  lemma {:induction false} PurePower(n: nat, v: real)
    ensures Coefs(Zeros(n) + [v]) == Zeros(n) + [v]
  {
    hide Coef;
    var xs := Zeros(n) + [v];
    FirstCoef(xs);
    if n > 0 {
      PurePower(n - 1, v);
      ZeroCoefs(n);
      assert xs[..n] == Zeros(n) && xs[1..] == Zeros(n - 1) + [v];
      CoefsRule(xs);
      hide Coefs;
      PowerStep(n, v);
    }
  }

  lemma PowerStep(n: nat, v: real)
    requires n > 0
    ensures Add(Zeros(n) + [0.0], [0.0] + Sub(Zeros(n - 1) + [v], Zeros(n))) == Zeros(n) + [v]
  {
    var d := Sub(Zeros(n - 1) + [v], Zeros(n));
    assert d == Zeros(n - 1) + [v];
    assert [0.0] + d == Zeros(n) + [v];
  }

  /** A segment of degree seven that the format stores and the search for extrema does not
      handle: it leaves the result of that axis unset and reports success. */
  lemma HighDegreeDeparts()
    ensures var seg := Segment(1000, [0, 0, 0, 0, 0, 0, 1], [], [], []);
            StorableSegment(seg) && PieceCoefficients(X, 1, 0.0, [seg], 0) == Zeros(7) + [1.0]
            && Trim(PieceCoefficients(X, 1, 0.0, [seg], 0), 2) == 8
            && !Handled(X, 1, 0.0, [seg])
  {
    hide Coefs, Trim;
    var seg := Segment(1000, [0, 0, 0, 0, 0, 0, 1], [], [], []);
    var cs := Zeros(7) + [1.0];
    assert Points(X, 1, 0.0, seg.x) == cs;
    PurePower(7, 1.0);
    StretchedByOne(cs);
    assert 1.0 / 1.0 == 1.0;
    TrimIs(cs, 2, 8);
  }

  ghost predicate TakenByPiece(v: real, a: Axis, scale: nat, from: real, segs: seq<Segment>, k: nat) {
    k < |segs| && Takes(PieceCoefficients(a, scale, from, segs, k), v)
  }

  /** The interval is the hull of the first n pieces; before any piece there is none. */
  ghost predicate HullOf(r: Option<Interval>, a: Axis, scale: nat, from: real, segs: seq<Segment>, n: nat) {
    n <= |segs| && (r.None? <==> n == 0)
    && (r.Some? ==>
          (forall k :: 0 <= k < n ==> Encloses(r.value, PieceCoefficients(a, scale, from, segs, k)))
          && (exists k :: TakenByPiece(r.value.min, a, scale, from, segs, k))
          && (exists k :: TakenByPiece(r.value.max, a, scale, from, segs, k)))
  }

  /** No answer of a player leaves the interval, whatever piece it has cached and whatever time it
      is asked for, and neither does the motion. */
  ghost predicate Bounds(r: Interval, a: Axis, scale: nat, from: real, segs: seq<Segment>) {
    (forall k: nat, t: Time :: k <= |segs| ==> AnswerWithin(r, a, scale, from, segs, k, t))
    && (forall t: Time :: r.min <= PositionAt(a, scale, from, segs, t) <= r.max)
  }

  ghost predicate AnswerWithin(r: Interval, a: Axis, scale: nat, from: real, segs: seq<Segment>, k: nat, t: Time)
    requires k <= |segs|
  {
    r.min <= FromPiece(a, scale, from, segs, Land(Durations(segs), k, Clip(t)), Clip(t)) <= r.max
  }

  /** The relative time is never outside the unit interval. */
  lemma RelativeInUnit(ds: seq<nat>, k: nat, t: real)
    requires k < |ds| && Contains(ds, k, Finite(t))
    ensures 0.0 <= RelativeTime(ds, k, Finite(t)) <= 1.0
  {
    StartStep(ds, k);
    SecSum(StartMsec(ds, k), ds[k]);
    SecSum(ds[k], 0);
    hide StartMsec;
    if ds[k] > 0 { Quotient01(t - Sec(StartMsec(ds, k)), Sec(ds[k])); }
  }

  lemma Quotient01(x: real, d: real)
    requires 0.0 <= x <= d && d > 0.0
    ensures 0.0 <= x / d <= 1.0
  {
  }

  /** For any durations, zero included, the hull of all pieces bounds every answer of a player,
      from every cached piece, and the motion, at every time, the end of time included. */
  lemma HullBounds(r: Interval, a: Axis, scale: nat, from: real, segs: seq<Segment>)
    requires segs != [] && HullOf(Some(r), a, scale, from, segs, |segs|)
    ensures Bounds(r, a, scale, from, segs)
  {
    hide PositionAt, Encloses, FromPiece, Land, Contains, HullOf;
    forall k: nat, t: Time | k <= |segs| ensures AnswerWithin(r, a, scale, from, segs, k, t) {
      LandContains(Durations(segs), k, t);
      PieceBounds(r, a, scale, from, segs, Land(Durations(segs), k, Clip(t)), Clip(t));
    }
    forall t: Time ensures r.min <= PositionAt(a, scale, from, segs, t) <= r.max {
      MotionBounds(r, a, scale, from, segs, t);
    }
  }

  lemma MotionBounds(r: Interval, a: Axis, scale: nat, from: real, segs: seq<Segment>, t: Time)
    requires segs != [] && HullOf(Some(r), a, scale, from, segs, |segs|)
    ensures r.min <= PositionAt(a, scale, from, segs, t) <= r.max
  {
    hide FromPiece, Motion, HullOf, Contains, Before, Land;
    if t.Finite? {
      var k := MotionIsShown(a, scale, from, segs, if t.t <= 0.0 then 0.0 else t.t);
      PieceBounds(r, a, scale, from, segs, k, Clip(t));
    } else {
      EndOfTime(a, scale, from, segs, 0);
      LandContains(Durations(segs), 0, Infinite);
      PieceBounds(r, a, scale, from, segs, |segs|, Infinite);
    }
  }

  lemma PieceBounds(r: Interval, a: Axis, scale: nat, from: real, segs: seq<Segment>, k: nat, t: Time)
    requires segs != [] && HullOf(Some(r), a, scale, from, segs, |segs|)
    requires k <= |segs| && Contains(Durations(segs), k, t)
    ensures r.min <= FromPiece(a, scale, from, segs, k, t) <= r.max
  {
    hide Eval, StartMsec, Coefficients;
    if k < |segs| {
      assert Encloses(r, PieceCoefficients(a, scale, from, segs, k));
      RelativeInUnit(Durations(segs), k, t.t);
    } else {
      var m := k - 1;
      var p := Before(a, scale, from, segs, m);
      assert Encloses(r, PieceCoefficients(a, scale, from, segs, m));
      CoefficientsAreCurve(a, scale, p, segs[m].On(a), 1.0);
      ConstantEval(Before(a, scale, from, segs, k), RelativeTime(Durations(segs), k, t));
    }
  }

  /** And it is no larger than it has to be: each end that is taken by a segment that takes time
      is shown at some time, and where the joints meet it is the position at that time. */
  lemma HullReached(v: real, a: Axis, scale: nat, from: real, segs: seq<Segment>, k: nat) returns (t: Time)
    requires TakenByPiece(v, a, scale, from, segs, k) && segs[k].duration > 0
    ensures Contains(Durations(segs), k, t) && FromPiece(a, scale, from, segs, k, t) == v
    ensures JointsMeet(a, scale, from, segs) ==> PositionAt(a, scale, from, segs, t) == v
  {
    hide Eval, StartMsec, Motion, PieceCoefficients, JointsMeet;
    var cs, ds := PieceCoefficients(a, scale, from, segs, k), Durations(segs);
    var u :| TakenAt(cs, u, v);
    var start, d := Sec(StartMsec(ds, k)), Sec(ds[k]);
    t := Finite(start + u * d);
    SecSum(ds[k], 0);
    Within(u, d);
    StartStep(ds, k);
    SecSum(StartMsec(ds, k), ds[k]);
    Scaled01(u, d);
    assert Contains(ds, k, t);
    assert RelativeTime(ds, k, t) == u;
    if JointsMeet(a, scale, from, segs) { PieceIsMotion(a, scale, from, segs, k, t.t); }
  }

  lemma Within(u: real, d: real)
    requires 0.0 <= u <= 1.0 && d > 0.0
    ensures 0.0 <= u * d <= d
  {
    NonNegative(u, d);
    NonNegative(1.0 - u, d);
  }

  lemma Scaled01(u: real, d: real)
    requires d > 0.0
    ensures (u * d) / d == u
  {
  }

  /** The interval of one polynomial is taken into the hull. */
  method Widen(acc: Option<Interval>, cs: seq<real>, sqrt: real -> real) returns (r: Option<Interval>)
    requires |cs| <= MAX_COEFFS && SquareRoot(sqrt) && Clean(cs) && Trim(cs, 2) <= 4
    ensures r.Some? && Encloses(r.value, cs)
    ensures acc.Some? ==> r.value.min <= acc.value.min && acc.value.max <= r.value.max
    ensures (acc.Some? && r.value.min == acc.value.min) || Takes(cs, r.value.min)
    ensures (acc.Some? && r.value.max == acc.value.max) || Takes(cs, r.value.max)
  {
    hide Clean, Trim, SquareRoot, Takes, Eval;
    var p := new Poly();
    p.Make(cs);
    assert Used(cs) == cs;
    var _, interval := GetExtrema(p, sqrt);
    var low, high := interval.value.min, interval.value.max;
    if acc.Some? {  // without an interval so far the bounds are infinite
      if !(low < acc.value.min) { low := acc.value.min; }
      if !(high > acc.value.max) { high := acc.value.max; }
    }
    r := Some(Interval(low, high));
  }

  lemma Widened(acc: Option<Interval>, r: Option<Interval>, a: Axis, scale: nat, from: real, segs: seq<Segment>,
                k: nat)
    requires k < |segs| && HullOf(acc, a, scale, from, segs, k)
    requires var cs := PieceCoefficients(a, scale, from, segs, k);
             r.Some? && Encloses(r.value, cs)
             && (acc.Some? ==> r.value.min <= acc.value.min && acc.value.max <= r.value.max)
             && ((acc.Some? && r.value.min == acc.value.min) || Takes(cs, r.value.min))
             && ((acc.Some? && r.value.max == acc.value.max) || Takes(cs, r.value.max))
    ensures HullOf(r, a, scale, from, segs, k + 1)
  {
    hide Takes, Eval, PieceCoefficients;
    if Takes(PieceCoefficients(a, scale, from, segs, k), r.value.min) {
      assert TakenByPiece(r.value.min, a, scale, from, segs, k);
    }
    if Takes(PieceCoefficients(a, scale, from, segs, k), r.value.max) {
      assert TakenByPiece(r.value.max, a, scale, from, segs, k);
    }
  }

  ghost predicate AllHandled(trajectory: Trajectory, segs: seq<Segment>) {
    forall a: Axis :: a != Yaw ==> Handled(a, trajectory.scale, trajectory.start.On(a), segs)
  }

  lemma AxisReady(a: Axis, p: Piece, trajectory: Trajectory, segs: seq<Segment>, k: nat)
    requires a != Yaw && AllHandled(trajectory, segs) && IntegerPoint(trajectory.start) && k < |segs|
    requires Moves(p, trajectory.scale, trajectory.start, segs, k)
    ensures var cs := PieceCoefficients(a, trajectory.scale, trajectory.start.On(a), segs, k);
            p.poly.On(a) == cs && |cs| <= MAX_COEFFS && Clean(cs) && Trim(cs, 2) <= 4
  {
    hide PieceCoefficients, Trim, Clean, IsInt;
    PiecesAreClean(a, trajectory.scale, trajectory.start.On(a), segs, k);
    assert Handled(a, trajectory.scale, trajectory.start.On(a), segs);
  }

  /** The bounding box: on every axis the hull of all segments, which no answer of a player leaves. */
  method GetAxisAlignedBoundingBox(trajectory: Trajectory, sqrt: real -> real, ghost segs: seq<Segment>)
    returns (status: Status, x: Option<Interval>, y: Option<Interval>, z: Option<Interval>)
    requires trajectory.Holds(segs) && AllHandled(trajectory, segs) && SquareRoot(sqrt)
    ensures status == Success
    ensures HullOf(x, X, trajectory.scale, trajectory.start.x, segs, |segs|)
    ensures HullOf(y, Y, trajectory.scale, trajectory.start.y, segs, |segs|)
    ensures HullOf(z, Z, trajectory.scale, trajectory.start.z, segs, |segs|)
    ensures segs != [] ==>
              Bounds(x.value, X, trajectory.scale, trajectory.start.x, segs)
              && Bounds(y.value, Y, trajectory.scale, trajectory.start.y, segs)
              && Bounds(z.value, Z, trajectory.scale, trajectory.start.z, segs)
  {
    hide HullOf, Bounds, IntegerPoint, Timed, Stands, Moves, Clean, Trim, SquareRoot, Takes, Encloses,
      PieceCoefficients, Trajectory.Holds, AllHandled;
    StartIsInt(trajectory, segs);
    status, x, y, z := Success, None, None, None;
    NoHull(trajectory, segs);
    var player := new Player(trajectory, segs);
    var more := player.HasMoreSegments();
    while more
      invariant player.Valid() && player.trajectory == trajectory && player.segs == segs
      invariant more <==> player.index < |segs|
      invariant player.index <= |segs|
      invariant HullOf(x, X, trajectory.scale, trajectory.start.x, segs, player.index)
      invariant HullOf(y, Y, trajectory.scale, trajectory.start.y, segs, player.index)
      invariant HullOf(z, Z, trajectory.scale, trajectory.start.z, segs, player.index)
      decreases |segs| - player.index
    {
      var poly := player.current.poly;
      ghost var k := player.index;
      AxisReady(X, player.current, trajectory, segs, k);
      AxisReady(Y, player.current, trajectory, segs, k);
      AxisReady(Z, player.current, trajectory, segs, k);
      ghost var x0, y0, z0 := x, y, z;
      x := Widen(x, poly.x, sqrt);
      y := Widen(y, poly.y, sqrt);
      z := Widen(z, poly.z, sqrt);
      Widened(x0, x, X, trajectory.scale, trajectory.start.x, segs, k);
      Widened(y0, y, Y, trajectory.scale, trajectory.start.y, segs, k);
      Widened(z0, z, Z, trajectory.scale, trajectory.start.z, segs, k);
      player.BuildNextSegment();
      more := player.HasMoreSegments();
    }
    BoxBounds(x, y, z, trajectory, segs);
  }

  lemma StartIsInt(trajectory: Trajectory, segs: seq<Segment>)
    requires trajectory.Holds(segs)
    ensures IntegerPoint(trajectory.start)
  {
  }

  lemma NoHull(trajectory: Trajectory, segs: seq<Segment>)
    ensures HullOf(None, X, trajectory.scale, trajectory.start.x, segs, 0)
    ensures HullOf(None, Y, trajectory.scale, trajectory.start.y, segs, 0)
    ensures HullOf(None, Z, trajectory.scale, trajectory.start.z, segs, 0)
  {
  }

  lemma BoxBounds(x: Option<Interval>, y: Option<Interval>, z: Option<Interval>, trajectory: Trajectory,
                  segs: seq<Segment>)
    requires HullOf(x, X, trajectory.scale, trajectory.start.x, segs, |segs|)
    requires HullOf(y, Y, trajectory.scale, trajectory.start.y, segs, |segs|)
    requires HullOf(z, Z, trajectory.scale, trajectory.start.z, segs, |segs|)
    ensures segs != [] ==> x.Some? && y.Some? && z.Some?
    ensures segs != [] ==>
              Bounds(x.value, X, trajectory.scale, trajectory.start.x, segs)
              && Bounds(y.value, Y, trajectory.scale, trajectory.start.y, segs)
              && Bounds(z.value, Z, trajectory.scale, trajectory.start.z, segs)
  {
    hide Bounds, Encloses, Takes;
    if segs != [] {
      HullBounds(x.value, X, trajectory.scale, trajectory.start.x, segs);
      HullBounds(y.value, Y, trajectory.scale, trajectory.start.y, segs);
      HullBounds(z.value, Z, trajectory.scale, trajectory.start.z, segs);
    }
  }
}
