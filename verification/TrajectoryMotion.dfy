// The motion that a trajectory stands for, and the answers a player gives from any piece.
module TrajectoryMotion {
  import opened Basics
  import opened Parsing
  import opened TrajectoryFormat
  import opened Timeline
  import opened Bezier
  import Polynomials

  /** The control points of a segment on an axis: where it starts, then its own. */
  function Points(a: Axis, scale: nat, from: real, vs: seq<int>): (ps: seq<real>)
    ensures |ps| == |vs| + 1
  {
    [from] + DecodedAll(a, scale, vs)
  }

  function DecodedAll(a: Axis, scale: nat, vs: seq<int>): (ps: seq<real>)
    ensures |ps| == |vs| && forall i :: 0 <= i < |vs| ==> ps[i] == Decoded(a, scale, vs[i])
  {
    seq(|vs|, i requires 0 <= i < |vs| => Decoded(a, scale, vs[i]))
  }

  /** The polynomial of a segment on an axis, on [0, 1]. */
  function Coefficients(a: Axis, scale: nat, from: real, vs: seq<int>): seq<real> {
    Polynomials.BezierCoefs(Points(a, scale, from, vs), 1.0)
  }

  /** Where an axis is after t seconds: on the Bezier curve of the segment that is played
      then, and for ever at the end after the last one. */
  function Motion(a: Axis, scale: nat, from: real, segs: seq<Segment>, t: real): real
    decreases |segs|
  {
    if segs == [] then from
    else
      var d := Sec(segs[0].duration);
      if t <= d && d > 0.0 then Curve(Points(a, scale, from, segs[0].On(a)), t / d)
      else Motion(a, scale, EndOn(a, scale, from, segs[0].On(a)), segs[1..], t - d)
  }

  /** Where an axis is at the start of piece k. */
  function Before(a: Axis, scale: nat, from: real, segs: seq<Segment>, k: nat): real
    requires k <= |segs|
  {
    if k == 0 then from else EndOn(a, scale, Before(a, scale, from, segs, k - 1), segs[k - 1].On(a))
  }

  function PositionAt(a: Axis, scale: nat, from: real, segs: seq<Segment>, t: Time): real {
    match t
    case Finite(s) => Motion(a, scale, from, segs, if s <= 0.0 then 0.0 else s)
    case Infinite => Before(a, scale, from, segs, |segs|)
  }

  /** The polynomial that a player has for piece k. */
  function PieceCoefficients(a: Axis, scale: nat, from: real, segs: seq<Segment>, k: nat): seq<real>
    requires k <= |segs|
  {
    var p := Before(a, scale, from, segs, k);
    if k == |segs| then [p] else Coefficients(a, scale, p, segs[k].On(a))
  }

  /** What a player computes from piece k. */
  function FromPiece(a: Axis, scale: nat, from: real, segs: seq<Segment>, k: nat, t: Time): real
    requires k <= |segs|
  {
    Eval(PieceCoefficients(a, scale, from, segs, k), RelativeTime(Durations(segs), k, t))
  }

  lemma ConstantEval(p: real, u: real)
    ensures Eval([p], u) == p
  {
    assert [p][1..] == [] && Eval([], u) == 0.0;
    assert u * 0.0 == 0.0;
  }

  /** A segment's polynomial is its curve, from the point before it to its last control point. */
  lemma CoefficientsAreCurve(a: Axis, scale: nat, from: real, vs: seq<int>, u: real)
    ensures Eval(Coefficients(a, scale, from, vs), u) == Curve(Points(a, scale, from, vs), u)
    ensures Eval(Coefficients(a, scale, from, vs), 0.0) == from
    ensures Eval(Coefficients(a, scale, from, vs), 1.0) == EndOn(a, scale, from, vs)
  {
    hide Curve, Eval, Polynomials.BezierCoefs, Decoded;
    var ps := Points(a, scale, from, vs);
    assert u / 1.0 == u && 0.0 / 1.0 == 0.0 && 1.0 / 1.0 == 1.0;
    Polynomials.BezierCoefsEval(ps, 1.0, u);
    Polynomials.BezierCoefsEval(ps, 1.0, 0.0);
    Polynomials.BezierCoefsEval(ps, 1.0, 1.0);
    CurveEnds(ps);
  }

  /** So many milliseconds into segment k, whose start is the sum of the durations before it, the
      segment contains the time and shows the point of its curve that the fraction of its duration
      gives. The time that a player is asked for is in seconds. */
  lemma SegmentShowsCurve(a: Axis, scale: nat, from: real, segs: seq<Segment>, k: nat, u: real)
    requires k < |segs| && segs[k].duration > 0 && 0.0 <= u <= 1.0
    ensures var t := Moment(Sum(Durations(segs[..k])), u, segs[k].duration);
            && t.t >= 0.0 && Contains(Durations(segs), k, t)
            && FromPiece(a, scale, from, segs, k, t)
               == Curve(Points(a, scale, Before(a, scale, from, segs, k), segs[k].On(a)), u)
  {
    hide Sum, Before, Coefficients, Eval, Curve, Points;
    assert Durations(segs)[..k] == Durations(segs[..k]);
    MomentInside(Durations(segs), k, u);
    hide Moment;
    CoefficientsAreCurve(a, scale, Before(a, scale, from, segs, k), segs[k].On(a), u);
    assert Eval(PieceCoefficients(a, scale, from, segs, k), u)
           == Curve(Points(a, scale, Before(a, scale, from, segs, k), segs[k].On(a)), u);
    hide Contains, RelativeTime, PieceCoefficients;
  }

  // ---- the same position from any piece ----

  lemma {:induction false} TailBefore(a: Axis, scale: nat, from: real, segs: seq<Segment>, k: nat)
    requires 1 <= k <= |segs|
    ensures Before(a, scale, EndOn(a, scale, from, segs[0].On(a)), segs[1..], k - 1)
            == Before(a, scale, from, segs, k)
  {
    hide EndOn;
    if k > 1 {
      TailBefore(a, scale, from, segs, k - 1);
    } else {
      assert Before(a, scale, from, segs, 0) == from;
    }
  }

  /** At its own start a piece that takes time gives the position where the one before it ends:
      the curve is continuous at the joints. */
  lemma AtItsStart(a: Axis, scale: nat, from: real, segs: seq<Segment>, k: nat)
    requires k <= |segs| && (k < |segs| ==> segs[k].duration > 0)
    ensures FromPiece(a, scale, from, segs, k, Finite(Sec(StartMsec(Durations(segs), k))))
            == Before(a, scale, from, segs, k)
  {
    hide StartMsec, Before, Coefficients, Eval;
    var p := Before(a, scale, from, segs, k);
    if k < |segs| {
      SecSum(Durations(segs)[k], 0);
      CoefficientsAreCurve(a, scale, p, segs[k].On(a), 0.0);
    } else {
      ConstantEval(p, 0.0);
    }
  }

  lemma FirstPieces(a: Axis, scale: nat, from: real, segs: seq<Segment>)
    ensures Before(a, scale, from, segs, 0) == from
    ensures segs != [] ==> Before(a, scale, from, segs, 1) == EndOn(a, scale, from, segs[0].On(a))
    ensures StartMsec(Durations(segs), 0) == 0
    ensures segs != [] ==> StartMsec(Durations(segs), 1) == segs[0].duration
  {
    hide EndOn;
    if segs != [] { StartStep(Durations(segs), 0); }
    StartOfFirst(Durations(segs));
  }

  lemma TailPiece(a: Axis, scale: nat, from: real, segs: seq<Segment>, k: nat, t: real)
    requires 1 <= k <= |segs| && Contains(Durations(segs), k, Finite(t))
    ensures var d := Sec(segs[0].duration);
            FromPiece(a, scale, EndOn(a, scale, from, segs[0].On(a)), segs[1..], k - 1, Finite(t - d))
            == FromPiece(a, scale, from, segs, k, Finite(t))
  {
    hide Coefficients, EndOn, RelativeTime, StartMsec, Before, Eval, Contains;
    RestTime(Durations(segs), k, t);
    assert Durations(segs[1..]) == Durations(segs)[1..];
    TailBefore(a, scale, from, segs, k);
  }

  /** For any durations the motion's position is what some piece that contains the time shows. */
  lemma {:induction false} MotionIsShown(a: Axis, scale: nat, from: real, segs: seq<Segment>, t: real)
    returns (k: nat)
    requires t >= 0.0
    ensures k <= |segs| && Contains(Durations(segs), k, Finite(t))
    ensures FromPiece(a, scale, from, segs, k, Finite(t)) == Motion(a, scale, from, segs, t)
    decreases |segs|
  {
    hide StartMsec, Before, Coefficients, Curve, Eval, EndOn, Points, Contains;
    var ds := Durations(segs);
    FirstPieces(a, scale, from, segs);
    k := 0;
    if segs == [] {
      ConstantEval(from, 0.0);
      FirstContains(ds, t);
    } else {
      var d := Sec(ds[0]);
      SecSum(ds[0], 0);
      if t <= d && d > 0.0 {
        FirstContains(ds, t);
        FirstPiece(a, scale, from, segs, t);
      } else {
        assert Durations(segs[1..]) == ds[1..];
        var m := MotionIsShown(a, scale, EndOn(a, scale, from, segs[0].On(a)), segs[1..], t - d);
        k := m + 1;
        RestContains(ds, k, t);
        TailPiece(a, scale, from, segs, k, t);
      }
    }
  }

  lemma FirstContains(ds: seq<nat>, t: real)
    requires t >= 0.0 && (ds != [] ==> t <= Sec(ds[0]))
    ensures Contains(ds, 0, Finite(t))
  {
    StartOfFirst(ds);
    if ds != [] { StartStep(ds, 0); }
  }

  lemma FirstPiece(a: Axis, scale: nat, from: real, segs: seq<Segment>, t: real)
    requires segs != [] && segs[0].duration > 0 && t <= Sec(segs[0].duration)
    ensures FromPiece(a, scale, from, segs, 0, Finite(t)) == Motion(a, scale, from, segs, t)
  {
    hide StartMsec, Coefficients, Curve, Eval, EndOn, Points;
    var d := Sec(segs[0].duration);
    FirstPieces(a, scale, from, segs);
    SecSum(segs[0].duration, 0);
    assert (t - 0.0) / d == t / d;
    CoefficientsAreCurve(a, scale, from, segs[0].On(a), t / d);
  }

  /** At the end of time the last position is held. */
  lemma EndOfTime(a: Axis, scale: nat, from: real, segs: seq<Segment>, k: nat)
    requires k <= |segs|
    ensures Land(Durations(segs), k, Infinite) == |segs|
    ensures FromPiece(a, scale, from, segs, |segs|, Infinite) == PositionAt(a, scale, from, segs, Infinite)
  {
    hide Before;
    LandContains(Durations(segs), k, Infinite);
    ConstantEval(Before(a, scale, from, segs, |segs|), 1.0);
  }

  // ---- velocity ----

  function ScaledBy(cs: seq<real>, factor: real): (ds: seq<real>)
    ensures |ds| == |cs| && forall i :: 0 <= i < |cs| ==> ds[i] == Weigh(cs[i], factor)
  {
    seq(|cs|, i requires 0 <= i < |cs| => Weigh(cs[i], factor))
  }

  /** The derivative as the library takes it: that of a constant is the constant zero. */
  function Derivative(cs: seq<real>): seq<real> { if |cs| > 1 then Deriv(cs) else [0.0] }

  /** The derivative by time of a polynomial on [0, 1] that takes so many seconds. */
  function PerSecond(cs: seq<real>, duration: real): seq<real> {
    if AbsReal(duration) > 0.000001 then ScaledBy(Derivative(cs), 1.0 / duration) else Derivative(cs)
  }

  function VelocityCoefficients(a: Axis, scale: nat, from: real, segs: seq<Segment>, k: nat): seq<real>
    requires k <= |segs|
  {
    if k == |segs| then [] else PerSecond(PieceCoefficients(a, scale, from, segs, k), Sec(segs[k].duration))
  }

  /** The velocity that a player computes from piece k. */
  function VelocityFrom(a: Axis, scale: nat, from: real, segs: seq<Segment>, k: nat, t: Time): real
    requires k <= |segs|
  {
    Eval(VelocityCoefficients(a, scale, from, segs, k), RelativeTime(Durations(segs), k, t))
  }

  lemma {:induction false} EvalScaledBy(cs: seq<real>, factor: real, u: real)
    ensures Eval(ScaledBy(cs, factor), u) == Weigh(Eval(cs, u), factor)
  {
    WeighSum(0.0, 0.0, u, factor);
    if cs != [] {
      hide Weigh, Product;
      EvalScaledBy(cs[1..], factor, u);
      assert ScaledBy(cs, factor)[1..] == ScaledBy(cs[1..], factor);
      WeighSum(cs[0], Eval(cs[1..], u), u, factor);
    }
  }

  lemma WeighSum(c: real, e: real, u: real, factor: real)
    ensures Weigh(c + Product(u, e), factor) == Weigh(c, factor) + Product(u, Weigh(e, factor))
    ensures Weigh(0.0, factor) == 0.0
  {
    assert (u * e) * factor == u * (e * factor);
  }

  lemma EvalDerivative(cs: seq<real>, u: real)
    ensures Eval(Derivative(cs), u) == Eval(Deriv(cs), u)
  {
    if |cs| <= 1 { ConstantEval(0.0, u); }
  }

  function AccelerationCoefficients(a: Axis, scale: nat, from: real, segs: seq<Segment>, k: nat): seq<real>
    requires k <= |segs|
  {
    if k == |segs| then [] else PerSecond(VelocityCoefficients(a, scale, from, segs, k), Sec(segs[k].duration))
  }

  /** The acceleration that a player computes from piece k. */
  function AccelerationFrom(a: Axis, scale: nat, from: real, segs: seq<Segment>, k: nat, t: Time): real
    requires k <= |segs|
  {
    Eval(AccelerationCoefficients(a, scale, from, segs, k), RelativeTime(Durations(segs), k, t))
  }

  /** The mean rate of change of a polynomial that is run through in so many seconds. */
  function MeanRate(cs: seq<real>, seconds: real, x: real, y: real): real
    requires seconds > 0.0
  {
    Slope(cs, x, y) / seconds
  }

  /** The mean velocity between two moments of a piece. */
  function MeanVelocity(a: Axis, scale: nat, from: real, segs: seq<Segment>, k: nat, s: Time, t: Time): real
    requires k < |segs| && segs[k].duration > 0
  {
    MeanRate(PieceCoefficients(a, scale, from, segs, k), Sec(segs[k].duration),
             RelativeTime(Durations(segs), k, s), RelativeTime(Durations(segs), k, t))
  }

  /** The mean acceleration between two moments of a piece. */
  function MeanAcceleration(a: Axis, scale: nat, from: real, segs: seq<Segment>, k: nat, s: Time, t: Time): real
    requires k < |segs| && segs[k].duration > 0
  {
    MeanRate(VelocityCoefficients(a, scale, from, segs, k), Sec(segs[k].duration),
             RelativeTime(Durations(segs), k, s), RelativeTime(Durations(segs), k, t))
  }

  /** Between two moments of a piece: the change of a polynomial is its mean rate times the time
      between them, and at one moment the mean rate is the polynomial that the library derives. */
  lemma RateOfPiece(cs: seq<real>, ds: seq<nat>, k: nat, s: real, t: real)
    requires k < |ds| && ds[k] > 0
    ensures var d, x, y := Sec(ds[k]), RelativeTime(ds, k, Finite(s)), RelativeTime(ds, k, Finite(t));
            d > 0.0 && Eval(cs, y) - Eval(cs, x) == Weigh(t - s, MeanRate(cs, d, x, y))
            && MeanRate(cs, d, x, x) == Eval(PerSecond(cs, d), x)
  {
    hide Eval, Slope, StartMsec, Deriv, Derivative, ScaledBy;
    var d, x, y := Sec(ds[k]), RelativeTime(ds, k, Finite(s)), RelativeTime(ds, k, Finite(t));
    SecSum(ds[k], 0);
    DerivIsSlope(cs, x, y);
    DerivIsSlope(cs, x, x);
    EvalScaledBy(Derivative(cs), 1.0 / d, x);
    EvalDerivative(cs, x);
    var z := Sec(StartMsec(ds, k));
    SlopeOverTime(d, s - z, t - z, Slope(cs, x, y));
    Inverse(Slope(cs, x, x), d);
  }

  /** The velocity is the derivative of the position by time: the mean velocity between any two
      moments of a piece is a polynomial in both, and where they meet it is the velocity. */
  lemma VelocityIsDerivative(a: Axis, scale: nat, from: real, segs: seq<Segment>, k: nat, s: real, t: real)
    requires k < |segs| && segs[k].duration > 0
    ensures FromPiece(a, scale, from, segs, k, Finite(t)) - FromPiece(a, scale, from, segs, k, Finite(s))
            == Weigh(t - s, MeanVelocity(a, scale, from, segs, k, Finite(s), Finite(t)))
    ensures MeanVelocity(a, scale, from, segs, k, Finite(s), Finite(s))
            == VelocityFrom(a, scale, from, segs, k, Finite(s))
  {
    hide Eval, Slope, PieceCoefficients, StartMsec, PerSecond, RelativeTime, MeanRate, Sec;
    RateOfPiece(PieceCoefficients(a, scale, from, segs, k), Durations(segs), k, s, t);
  }

  /** And the acceleration is the derivative of the velocity. */
  lemma AccelerationIsDerivative(a: Axis, scale: nat, from: real, segs: seq<Segment>, k: nat, s: real, t: real)
    requires k < |segs| && segs[k].duration > 0
    ensures VelocityFrom(a, scale, from, segs, k, Finite(t)) - VelocityFrom(a, scale, from, segs, k, Finite(s))
            == Weigh(t - s, MeanAcceleration(a, scale, from, segs, k, Finite(s), Finite(t)))
    ensures MeanAcceleration(a, scale, from, segs, k, Finite(s), Finite(s))
            == AccelerationFrom(a, scale, from, segs, k, Finite(s))
  {
    hide Eval, Slope, VelocityCoefficients, StartMsec, PerSecond, RelativeTime, MeanRate, Sec;
    RateOfPiece(VelocityCoefficients(a, scale, from, segs, k), Durations(segs), k, s, t);
  }

  lemma SlopeOverTime(d: real, s: real, t: real, m: real)
    requires d > 0.0
    ensures (t / d - s / d) * m == Weigh(t - s, m / d)
  {
    assert t / d - s / d == (t - s) / d;
    var q := (t - s) / d;
    assert q * d == t - s;
    assert (m / d) * d == m;
    assert (q * m) * d == (t - s) * m;
  }

  lemma Inverse(x: real, d: real)
    requires d > 0.0
    ensures Weigh(x, 1.0 / d) == x / d
  {
    assert (x * (1.0 / d)) * d == x;
  }
}
