// When the position or the velocity that a player gives depends on what it was asked before:
// the exact conditions, in terms of the control points and the durations.
module TrajectoryHistory {
  import opened Basics
  import opened Parsing
  import opened TrajectoryFormat
  import opened Timeline
  import opened Bezier
  import opened TrajectoryMotion
  import Polynomials

  function PositionAnswer(a: Axis, scale: nat, from: real, segs: seq<Segment>, t: Time): Answer {
    (k: nat) => if k <= |segs| then FromPiece(a, scale, from, segs, k, t) else 0.0
  }

  function VelocityAnswer(a: Axis, scale: nat, from: real, segs: seq<Segment>, t: Time): Answer {
    (k: nat) => if k <= |segs| then VelocityFrom(a, scale, from, segs, k, t) else 0.0
  }

  /** At every time the position is the same whatever piece is cached. */
  ghost predicate PositionHistoryFree(a: Axis, scale: nat, from: real, segs: seq<Segment>) {
    forall t: Time :: SameAnswer(Durations(segs), t, PositionAnswer(a, scale, from, segs, Clip(t)))
  }

  ghost predicate VelocityHistoryFree(a: Axis, scale: nat, from: real, segs: seq<Segment>) {
    forall t: Time :: SameAnswer(Durations(segs), t, VelocityAnswer(a, scale, from, segs, Clip(t)))
  }

  // ---- position ----

  /** The middle of a curve: what a segment of no duration shows. */
  function Middle(a: Axis, scale: nat, from: real, segs: seq<Segment>, k: nat): real
    requires k < |segs|
  {
    Curve(Points(a, scale, Before(a, scale, from, segs, k), segs[k].On(a)), 0.5)
  }

  /** Where a piece begins to be seen. */
  function FirstSeen(a: Axis, scale: nat, from: real, segs: seq<Segment>, k: nat): real
    requires k <= |segs|
  {
    if k < |segs| && segs[k].duration == 0 then Middle(a, scale, from, segs, k)
    else Before(a, scale, from, segs, k)
  }

  /** Where it was last seen. */
  function LastSeen(a: Axis, scale: nat, from: real, segs: seq<Segment>, k: nat): real
    requires k < |segs|
  {
    if segs[k].duration == 0 then Middle(a, scale, from, segs, k) else Before(a, scale, from, segs, k + 1)
  }

  /** Every piece begins to be seen where the one before it was last seen. */
  predicate JointsMeet(a: Axis, scale: nat, from: real, segs: seq<Segment>) {
    forall k :: 0 <= k < |segs| ==> LastSeen(a, scale, from, segs, k) == FirstSeen(a, scale, from, segs, k + 1)
  }

  lemma ShowsFirst(a: Axis, scale: nat, from: real, segs: seq<Segment>, k: nat)
    requires k <= |segs|
    ensures FromPiece(a, scale, from, segs, k, Finite(Sec(StartMsec(Durations(segs), k))))
            == FirstSeen(a, scale, from, segs, k)
  {
    hide StartMsec, Before, Coefficients, Eval, Points, Curve;
    if k < |segs| && segs[k].duration == 0 {
      SecSum(0, 0);
      CoefficientsAreCurve(a, scale, Before(a, scale, from, segs, k), segs[k].On(a), 0.5);
    } else {
      AtItsStart(a, scale, from, segs, k);
    }
  }

  lemma ShowsLast(a: Axis, scale: nat, from: real, segs: seq<Segment>, k: nat)
    requires k < |segs|
    ensures FromPiece(a, scale, from, segs, k, Finite(Sec(StartMsec(Durations(segs), k + 1))))
            == LastSeen(a, scale, from, segs, k)
  {
    var ds, p := Durations(segs), Before(a, scale, from, segs, k);
    assert Before(a, scale, from, segs, k + 1) == EndOn(a, scale, p, segs[k].On(a));
    hide StartMsec, Before, Coefficients, Eval, Points, Curve, EndOn;
    AtEnd(ds, k);
    CoefficientsAreCurve(a, scale, p, segs[k].On(a), 0.5);
  }

  /** At its own end a piece is over, or half way if it takes no time. */
  lemma AtEnd(ds: seq<nat>, k: nat)
    requires k < |ds|
    ensures RelativeTime(ds, k, Finite(Sec(StartMsec(ds, k + 1)))) == if ds[k] > 0 then 1.0 else 0.5
    ensures RelativeTime(ds, k, Finite(Sec(StartMsec(ds, k)))) == if ds[k] > 0 then 0.0 else 0.5
  {
    StartStep(ds, k);
    var start, d := Sec(StartMsec(ds, k)), Sec(ds[k]);
    SecSum(StartMsec(ds, k), ds[k]);
    SecSum(ds[k], 0);
    hide StartMsec;
    if ds[k] > 0 { WholeAndNone(start, d); }
  }

  lemma WholeAndNone(start: real, d: real)
    requires d > 0.0
    ensures (start + d - start) / d == 1.0 && (start - start) / d == 0.0
  {
  }

  /** For any durations and any degrees: the position never depends on what was asked before if
      and only if every piece begins to be seen where the one before it was last seen. */
  lemma PositionHistoryFreeIff(a: Axis, scale: nat, from: real, segs: seq<Segment>)
    ensures PositionHistoryFree(a, scale, from, segs) <==> JointsMeet(a, scale, from, segs)
  {
    hide FromPiece, StartMsec, Land, FirstSeen, LastSeen;
    var ds := Durations(segs);
    if JointsMeet(a, scale, from, segs) {
      forall t: Time ensures SameAnswer(ds, t, PositionAnswer(a, scale, from, segs, Clip(t))) {
        PositionsAgree(a, scale, from, segs, t);
      }
    }
    if PositionHistoryFree(a, scale, from, segs) {
      forall k | 0 <= k < |segs| ensures LastSeen(a, scale, from, segs, k) == FirstSeen(a, scale, from, segs, k + 1) {
        var t := Finite(Sec(StartMsec(ds, k + 1)));
        assert SameAnswer(ds, t, PositionAnswer(a, scale, from, segs, Clip(t)));
        JointAgrees(ds, k, PositionAnswer(a, scale, from, segs, t));
        ShowsLast(a, scale, from, segs, k);
        ShowsFirst(a, scale, from, segs, k + 1);
      }
    }
  }

  lemma PositionsAgree(a: Axis, scale: nat, from: real, segs: seq<Segment>, t: Time)
    requires JointsMeet(a, scale, from, segs)
    ensures var ds, answer := Durations(segs), PositionAnswer(a, scale, from, segs, Clip(t));
            SameAnswer(ds, t, answer)
            && forall m: nat :: Contains(ds, m, Clip(t)) ==> answer(m) == answer(Land(ds, 0, Clip(t)))
  {
    hide FromPiece, StartMsec, Land, FirstSeen, LastSeen, Contains;
    var ds, answer := Durations(segs), PositionAnswer(a, scale, from, segs, Clip(t));
    forall m: nat | m < |ds| && Clip(t) == Finite(Sec(StartMsec(ds, m + 1))) ensures answer(m) == answer(m + 1) {
      ShowsLast(a, scale, from, segs, m);
      ShowsFirst(a, scale, from, segs, m + 1);
    }
    JointsSuffice(ds, t, answer);
  }

  /** With positive durations the joints always meet: the position is continuous. */
  lemma PositiveMeet(a: Axis, scale: nat, from: real, segs: seq<Segment>)
    requires Positive(Durations(segs))
    ensures JointsMeet(a, scale, from, segs)
  {
    hide Before, Middle;
    forall k | 0 <= k < |segs| ensures LastSeen(a, scale, from, segs, k) == FirstSeen(a, scale, from, segs, k + 1) {
      assert Durations(segs)[k] > 0;
      if k + 1 < |segs| { assert Durations(segs)[k + 1] > 0; }
    }
  }

  /** Where the joints meet, every piece that contains the time gives the motion's position. */
  lemma PieceIsMotion(a: Axis, scale: nat, from: real, segs: seq<Segment>, k: nat, t: real)
    requires JointsMeet(a, scale, from, segs) && t >= 0.0 && Contains(Durations(segs), k, Finite(t))
    ensures FromPiece(a, scale, from, segs, k, Finite(t)) == Motion(a, scale, from, segs, t)
  {
    hide FromPiece, Motion, StartMsec, Land, Contains, JointsMeet;
    ContainsBound(Durations(segs), k, Finite(t));
    var m := MotionIsShown(a, scale, from, segs, t);
    PositionsAgree(a, scale, from, segs, Finite(t));
    assert Clip(Finite(t)) == Finite(t);
  }

  /** Every answer of a player is the motion's position. */
  ghost predicate ShowsMotion(a: Axis, scale: nat, from: real, segs: seq<Segment>) {
    forall k: nat, t: Time :: k <= |segs| ==> MotionShown(a, scale, from, segs, k, t)
  }

  ghost predicate MotionShown(a: Axis, scale: nat, from: real, segs: seq<Segment>, k: nat, t: Time)
    requires k <= |segs|
  {
    FromPiece(a, scale, from, segs, Land(Durations(segs), k, Clip(t)), Clip(t)) == PositionAt(a, scale, from, segs, t)
  }

  lemma SameFromAnyPiece(a: Axis, scale: nat, from: real, segs: seq<Segment>, k: nat, t: Time)
    requires JointsMeet(a, scale, from, segs) && k <= |segs|
    ensures MotionShown(a, scale, from, segs, k, t)
  {
    hide Motion, Land, StartMsec, Before, FromPiece, Contains, JointsMeet;
    var ds := Durations(segs);
    LandContains(ds, k, t);
    if t.Finite? {
      PieceIsMotion(a, scale, from, segs, Land(ds, k, Clip(t)), Clip(t).t);
    } else {
      EndOfTime(a, scale, from, segs, k);
    }
  }

  /** Whatever piece a player has cached and whatever time it is asked for, its position is that
      of the motion, if and only if the joints meet. */
  lemma ShowsMotionIff(a: Axis, scale: nat, from: real, segs: seq<Segment>)
    ensures ShowsMotion(a, scale, from, segs) <==> JointsMeet(a, scale, from, segs)
  {
    hide FromPiece, PositionAt, JointsMeet, Land;
    if JointsMeet(a, scale, from, segs) {
      forall k: nat, t: Time | k <= |segs| ensures MotionShown(a, scale, from, segs, k, t) {
        SameFromAnyPiece(a, scale, from, segs, k, t);
      }
    }
    if ShowsMotion(a, scale, from, segs) {
      var ds := Durations(segs);
      forall t: Time ensures SameAnswer(ds, t, PositionAnswer(a, scale, from, segs, Clip(t))) {
        forall k: nat | k <= |ds| ensures AsFresh(ds, k, t, PositionAnswer(a, scale, from, segs, Clip(t))) {
          assert MotionShown(a, scale, from, segs, k, t) && MotionShown(a, scale, from, segs, 0, t);
        }
      }
      PositionHistoryFreeIff(a, scale, from, segs);
    }
  }

  // ---- segments with at most one control value: all that a builder writes ----

  predicate Linear(a: Axis, segs: seq<Segment>) { forall k :: 0 <= k < |segs| ==> |segs[k].On(a)| <= 1 }

  /** No segment of no duration changes the axis. */
  predicate NoInstantMoves(a: Axis, scale: nat, from: real, segs: seq<Segment>) {
    forall k :: 0 <= k < |segs| && segs[k].duration == 0 ==> !Shifts(a, scale, from, segs, k)
  }

  predicate Shifts(a: Axis, scale: nat, from: real, segs: seq<Segment>, k: nat)
    requires k < |segs|
  {
    Before(a, scale, from, segs, k + 1) != Before(a, scale, from, segs, k)
  }

  /** The curve of a segment with at most one control value is the straight way. */
  lemma LineCurve(a: Axis, scale: nat, from: real, segs: seq<Segment>, k: nat, u: real)
    requires k < |segs| && |segs[k].On(a)| <= 1
    ensures Curve(Points(a, scale, Before(a, scale, from, segs, k), segs[k].On(a)), u)
            == Lerp(Before(a, scale, from, segs, k), Before(a, scale, from, segs, k + 1), u)
  {
    var p, vs := Before(a, scale, from, segs, k), segs[k].On(a);
    assert Before(a, scale, from, segs, k + 1) == EndOn(a, scale, p, vs);
    hide Before, Decoded;
    if |vs| == 1 {
      assert Points(a, scale, p, vs) == [p, Decoded(a, scale, vs[0])];
      TwoPoints(p, Decoded(a, scale, vs[0]), u);
    } else {
      assert Points(a, scale, p, vs) == [p];
      Stays(p, u);
    }
  }

  lemma TwoPoints(x: real, y: real, u: real)
    ensures Curve([x, y], u) == Lerp(x, y, u)
  {
    assert [x, y][..1] == [x] && [x, y][1..] == [y];
    CurveStep([x, y], u);
  }

  lemma Stays(x: real, u: real)
    ensures Lerp(x, x, u) == x
  {
  }

  /** The middle of a line. */
  lemma LinearMiddle(a: Axis, scale: nat, from: real, segs: seq<Segment>, k: nat)
    requires k < |segs| && |segs[k].On(a)| <= 1
    ensures Middle(a, scale, from, segs, k)
            == (Before(a, scale, from, segs, k) + Before(a, scale, from, segs, k + 1)) / 2.0
  {
    hide Before;
    LineCurve(a, scale, from, segs, k, 0.5);
  }

  /** The axis is at rest over a piece of no duration that does not move it. */
  lemma RestsAt(a: Axis, scale: nat, from: real, segs: seq<Segment>, k: nat)
    requires k <= |segs| && Linear(a, segs)
    requires k < |segs| && segs[k].duration == 0 ==> !Shifts(a, scale, from, segs, k)
    ensures FirstSeen(a, scale, from, segs, k) == Before(a, scale, from, segs, k)
    ensures k < |segs| ==> LastSeen(a, scale, from, segs, k) == Before(a, scale, from, segs, k + 1)
  {
    hide Before, Middle;
    if k < |segs| { LinearMiddle(a, scale, from, segs, k); }
  }

  lemma {:induction false} LastInstantMove(a: Axis, scale: nat, from: real, segs: seq<Segment>, n: nat) returns (m: nat)
    requires n <= |segs| && !NoInstantMoves(a, scale, from, segs)
    requires forall k :: n <= k < |segs| && segs[k].duration == 0 ==> !Shifts(a, scale, from, segs, k)
    ensures m < |segs| && segs[m].duration == 0 && Shifts(a, scale, from, segs, m)
    ensures forall k :: m < k < |segs| && segs[k].duration == 0 ==> !Shifts(a, scale, from, segs, k)
    decreases n
  {
    hide Shifts;
    if n > 0 && segs[n - 1].duration == 0 && Shifts(a, scale, from, segs, n - 1) {
      m := n - 1;
    } else {
      m := LastInstantMove(a, scale, from, segs, n - 1);
    }
  }

  lemma LinearMeetIff(a: Axis, scale: nat, from: real, segs: seq<Segment>)
    requires Linear(a, segs)
    ensures JointsMeet(a, scale, from, segs) <==> NoInstantMoves(a, scale, from, segs)
  {
    hide Before, Middle, FirstSeen, LastSeen;
    if NoInstantMoves(a, scale, from, segs) {
      hide Shifts;
      forall k | 0 <= k < |segs| ensures LastSeen(a, scale, from, segs, k) == FirstSeen(a, scale, from, segs, k + 1) {
        RestsAt(a, scale, from, segs, k);
        RestsAt(a, scale, from, segs, k + 1);
      }
    } else {
      var m := LastInstantMove(a, scale, from, segs, |segs|);
      MoveShows(a, scale, from, segs, m);
      assert LastSeen(a, scale, from, segs, m) != FirstSeen(a, scale, from, segs, m + 1);
    }
  }

  lemma MoveShows(a: Axis, scale: nat, from: real, segs: seq<Segment>, m: nat)
    requires Linear(a, segs) && m < |segs| && segs[m].duration == 0 && Shifts(a, scale, from, segs, m)
    requires m + 1 < |segs| && segs[m + 1].duration == 0 ==> !Shifts(a, scale, from, segs, m + 1)
    ensures LastSeen(a, scale, from, segs, m) != FirstSeen(a, scale, from, segs, m + 1)
  {
    RestsAt(a, scale, from, segs, m + 1);
    LinearMiddle(a, scale, from, segs, m);
    hide Before, Middle;
  }

  /** For lines the position is the same whatever was asked before, at every time, if and only if
      no segment of no duration changes the axis. */
  lemma LinearHistoryFreeIff(a: Axis, scale: nat, from: real, segs: seq<Segment>)
    requires Linear(a, segs)
    ensures PositionHistoryFree(a, scale, from, segs) <==> NoInstantMoves(a, scale, from, segs)
  {
    hide PositionHistoryFree, NoInstantMoves, JointsMeet;
    PositionHistoryFreeIff(a, scale, from, segs);
    LinearMeetIff(a, scale, from, segs);
  }

  /** For instance: a step of 100 units in no time is seen half done while it is cached, and done
      afterwards. */
  lemma InstantStepDeparts()
    ensures !PositionHistoryFree(X, 1, 0.0, [Segment(0, [100], [], [], [])])
  {
    var segs := [Segment(0, [100], [], [], [])];
    var at0, at1 := Before(X, 1, 0.0, segs, 0), Before(X, 1, 0.0, segs, 1);
    assert at0 == 0.0 && at1 == 100.0;
    assert segs[0].duration == 0 && Shifts(X, 1, 0.0, segs, 0);
    LinearHistoryFreeIff(X, 1, 0.0, segs);
  }

  // ---- velocity ----

  /** The derivative of a segment's curve on [0, 1]: its degree times the curve of its legs. */
  function CurveSpeed(a: Axis, scale: nat, from: real, vs: seq<int>, u: real): real {
    if vs == [] then 0.0 else Times(|vs|, Curve(Differences(Points(a, scale, from, vs)), u))
  }

  /** The velocity with which a piece begins: degree times first leg over duration; of a piece of
      no duration, the derivative at its middle. */
  function FirstSpeed(a: Axis, scale: nat, from: real, segs: seq<Segment>, k: nat): real
    requires k <= |segs|
  {
    if k == |segs| || segs[k].On(a) == [] then 0.0
    else
      var p, vs := Before(a, scale, from, segs, k), segs[k].On(a);
      if segs[k].duration == 0 then CurveSpeed(a, scale, p, vs, 0.5)
      else Times(|vs|, Decoded(a, scale, vs[0]) - p) / Sec(segs[k].duration)
  }

  /** The velocity with which it ends: degree times last leg over duration. */
  function LastSpeed(a: Axis, scale: nat, from: real, segs: seq<Segment>, k: nat): real
    requires k < |segs|
  {
    if segs[k].On(a) == [] then 0.0
    else
      var p, vs := Before(a, scale, from, segs, k), segs[k].On(a);
      var n := |vs|;
      if segs[k].duration == 0 then CurveSpeed(a, scale, p, vs, 0.5)
      else
        var before := if n == 1 then p else Decoded(a, scale, vs[n - 2]);
        Times(n, Decoded(a, scale, vs[n - 1]) - before) / Sec(segs[k].duration)
  }

  /** Every piece begins with the velocity with which the one before it ends. */
  predicate SpeedsMeet(a: Axis, scale: nat, from: real, segs: seq<Segment>) {
    forall k :: 0 <= k < |segs| ==> LastSpeed(a, scale, from, segs, k) == FirstSpeed(a, scale, from, segs, k + 1)
  }

  lemma CoefficientsSpeed(a: Axis, scale: nat, from: real, vs: seq<int>, u: real)
    ensures Eval(Derivative(Coefficients(a, scale, from, vs)), u) == CurveSpeed(a, scale, from, vs, u)
  {
    hide Decoded, Coef, Coefs, Stretched, Times, Curve, Eval, Deriv;
    var ps := Points(a, scale, from, vs);
    if |vs| == 0 {
      ConstantEval(0.0, u);
    } else if |vs| == 1 {
      LineSpeed(ps[0], ps[1], u);
      assert ps == [ps[0], ps[1]];
    } else {
      StretchedByOne(Coefs(ps));
      assert 1.0 / 1.0 == 1.0;
      Hodograph(ps, u);
    }
  }

  lemma LineSpeed(x: real, y: real, u: real)
    ensures Eval(Deriv([x, (y - x) / 1.0]), u) == Times(1, Curve(Differences([x, y]), u))
  {
    var d := y - x;
    assert d / 1.0 == d;
    assert Differences([x, y]) == [d];
    TimesOne(d);
    assert Deriv([x, d]) == [d];
    ConstantEval(d, u);
  }

  lemma EndSpeeds(a: Axis, scale: nat, from: real, vs: seq<int>)
    requires vs != []
    ensures CurveSpeed(a, scale, from, vs, 0.0) == Times(|vs|, Decoded(a, scale, vs[0]) - from)
    ensures var n := |vs|;
            var before := if n == 1 then from else Decoded(a, scale, vs[n - 2]);
            CurveSpeed(a, scale, from, vs, 1.0) == Times(n, Decoded(a, scale, vs[n - 1]) - before)
  {
    hide Times, Curve, Decoded;
    CurveEnds(Differences(Points(a, scale, from, vs)));
  }

  /** The velocity of a piece is the speed of its curve over its duration. */
  lemma PieceSpeed(a: Axis, scale: nat, from: real, segs: seq<Segment>, k: nat, u: real)
    requires k < |segs|
    ensures var s := CurveSpeed(a, scale, Before(a, scale, from, segs, k), segs[k].On(a), u);
            Eval(VelocityCoefficients(a, scale, from, segs, k), u)
            == if segs[k].duration > 0 then s / Sec(segs[k].duration) else s
  {
    hide Before, Eval, Coefficients, CurveSpeed, Derivative, ScaledBy;
    var p := Before(a, scale, from, segs, k);
    SecSum(segs[k].duration, 0);
    CoefficientsSpeed(a, scale, p, segs[k].On(a), u);
    if segs[k].duration > 0 {
      EvalScaledBy(Derivative(Coefficients(a, scale, p, segs[k].On(a))), 1.0 / Sec(segs[k].duration), u);
      Inverse(CurveSpeed(a, scale, p, segs[k].On(a), u), Sec(segs[k].duration));
    }
  }

  lemma BeginsWith(a: Axis, scale: nat, from: real, segs: seq<Segment>, k: nat)
    requires k <= |segs|
    ensures VelocityFrom(a, scale, from, segs, k, Finite(Sec(StartMsec(Durations(segs), k))))
            == FirstSpeed(a, scale, from, segs, k)
  {
    hide StartMsec, Before, VelocityCoefficients, Times, Decoded, Eval, RelativeTime;
    if k < |segs| {
      var u := if segs[k].duration > 0 then 0.0 else 0.5;
      AtEnd(Durations(segs), k);
      PieceSpeed(a, scale, from, segs, k, u);
      SecSum(segs[k].duration, 0);
      Nothing(Sec(segs[k].duration));
      hide CurveSpeed;
      if segs[k].On(a) != [] { EndSpeeds(a, scale, Before(a, scale, from, segs, k), segs[k].On(a)); }
    } else {
      HoldStill(a, scale, from, segs, RelativeTime(Durations(segs), k, Finite(Sec(StartMsec(Durations(segs), k)))));
    }
  }

  lemma HoldStill(a: Axis, scale: nat, from: real, segs: seq<Segment>, u: real)
    ensures Eval(VelocityCoefficients(a, scale, from, segs, |segs|), u) == 0.0
  {
  }

  lemma Nothing(d: real)
    ensures d > 0.0 ==> 0.0 / d == 0.0
  {
  }

  lemma EndsWith(a: Axis, scale: nat, from: real, segs: seq<Segment>, k: nat)
    requires k < |segs|
    ensures VelocityFrom(a, scale, from, segs, k, Finite(Sec(StartMsec(Durations(segs), k + 1))))
            == LastSpeed(a, scale, from, segs, k)
  {
    hide StartMsec, Before, VelocityCoefficients, Times, Decoded, Eval, RelativeTime;
    var u := if segs[k].duration > 0 then 1.0 else 0.5;
    AtEnd(Durations(segs), k);
    PieceSpeed(a, scale, from, segs, k, u);
    SecSum(segs[k].duration, 0);
    Nothing(Sec(segs[k].duration));
    if segs[k].On(a) != [] { EndSpeeds(a, scale, Before(a, scale, from, segs, k), segs[k].On(a)); }
  }

  /** At the joint behind segment k, when both its pieces take time: the velocity is the same
      whatever was asked before if and only if degree times last leg over duration on the left
      equals degree times first leg over duration on the right. */
  lemma VelocityAtJointIff(a: Axis, scale: nat, from: real, segs: seq<Segment>, k: nat)
    requires k < |segs| && segs[k].duration > 0 && (k + 1 < |segs| ==> segs[k + 1].duration > 0)
    ensures var ds := Durations(segs);
            var t := Finite(Sec(StartMsec(ds, k + 1)));
            SameAnswer(ds, t, VelocityAnswer(a, scale, from, segs, t))
            <==> LastSpeed(a, scale, from, segs, k) == FirstSpeed(a, scale, from, segs, k + 1)
  {
    hide VelocityFrom, StartMsec, LastSpeed, FirstSpeed, Land, Contains;
    var ds := Durations(segs);
    var t := Finite(Sec(StartMsec(ds, k + 1)));
    var answer := VelocityAnswer(a, scale, from, segs, t);
    EndsWith(a, scale, from, segs, k);
    BeginsWith(a, scale, from, segs, k + 1);
    ClipJoint(ds, k + 1);
    if SameAnswer(ds, t, answer) { JointAgrees(ds, k, answer); }
    if answer(k) == answer(k + 1) {
      forall m: nat | m < |ds| && Clip(t) == Finite(Sec(StartMsec(ds, m + 1))) ensures answer(m) == answer(m + 1) {
        OnlyJoint(ds, k, m);
      }
      JointsSuffice(ds, t, answer);
    }
  }

  lemma ClipJoint(ds: seq<nat>, k: nat)
    requires k <= |ds|
    ensures var t := Finite(Sec(StartMsec(ds, k))); Clip(t) == t
  {
  }

  /** Between two pieces that take time there is only one joint. */
  lemma OnlyJoint(ds: seq<nat>, k: nat, m: nat)
    requires k < |ds| && m < |ds| && ds[k] > 0 && (k + 1 < |ds| ==> ds[k + 1] > 0)
    requires Sec(StartMsec(ds, m + 1)) == Sec(StartMsec(ds, k + 1))
    ensures m == k
  {
    StartStep(ds, k);
    if m < k { StartMonotone(ds, m + 1, k); }
    if m > k {
      StartStep(ds, k + 1);
      StartMonotone(ds, k + 2, m + 1);
    }
  }

  /** For any durations and any degrees: the velocity never depends on what was asked before if
      and only if every piece begins with the velocity with which the one before it ends. */
  lemma VelocityHistoryFreeIff(a: Axis, scale: nat, from: real, segs: seq<Segment>)
    ensures VelocityHistoryFree(a, scale, from, segs) <==> SpeedsMeet(a, scale, from, segs)
  {
    hide VelocityFrom, StartMsec, Land, FirstSpeed, LastSpeed;
    var ds := Durations(segs);
    if SpeedsMeet(a, scale, from, segs) {
      forall t: Time ensures SameAnswer(ds, t, VelocityAnswer(a, scale, from, segs, Clip(t))) {
        var answer := VelocityAnswer(a, scale, from, segs, Clip(t));
        forall m: nat | m < |ds| && Clip(t) == Finite(Sec(StartMsec(ds, m + 1))) ensures answer(m) == answer(m + 1) {
          EndsWith(a, scale, from, segs, m);
          BeginsWith(a, scale, from, segs, m + 1);
        }
        JointsSuffice(ds, t, answer);
      }
    }
    if VelocityHistoryFree(a, scale, from, segs) {
      forall k | 0 <= k < |segs| ensures LastSpeed(a, scale, from, segs, k) == FirstSpeed(a, scale, from, segs, k + 1) {
        var t := Finite(Sec(StartMsec(ds, k + 1)));
        ClipJoint(ds, k + 1);
        assert SameAnswer(ds, t, VelocityAnswer(a, scale, from, segs, Clip(t)));
        JointAgrees(ds, k, VelocityAnswer(a, scale, from, segs, t));
        EndsWith(a, scale, from, segs, k);
        BeginsWith(a, scale, from, segs, k + 1);
      }
    }
  }

  /** Off the joints the velocity does not depend on what was asked before. */
  lemma VelocityOffJoints(a: Axis, scale: nat, from: real, segs: seq<Segment>, t: Time)
    requires forall k :: 1 <= k <= |segs| ==> Clip(t) != Finite(Sec(StartMsec(Durations(segs), k)))
    ensures SameAnswer(Durations(segs), t, VelocityAnswer(a, scale, from, segs, Clip(t)))
  {
    hide VelocityFrom, StartMsec, Land, Contains;
    JointsSuffice(Durations(segs), t, VelocityAnswer(a, scale, from, segs, Clip(t)));
  }

  /** At a joint both velocities occur: a new player shows the one that ends there, and a player
      that has the next piece cached the one that begins. */
  lemma BothVelocitiesOccur(a: Axis, scale: nat, from: real, segs: seq<Segment>, k: nat)
    requires k < |segs| && Positive(Durations(segs))
    ensures var ds := Durations(segs);
            var t := Finite(Sec(StartMsec(ds, k + 1)));
            var answer := VelocityAnswer(a, scale, from, segs, t);
            answer(Land(ds, 0, t)) == LastSpeed(a, scale, from, segs, k)
            && answer(Land(ds, k + 1, t)) == FirstSpeed(a, scale, from, segs, k + 1)
  {
    hide VelocityFrom, StartMsec, LastSpeed, FirstSpeed, Contains;
    var ds := Durations(segs);
    var t := Finite(Sec(StartMsec(ds, k + 1)));
    MeetAtJoint(ds, k, t);
    if k > 0 && Contains(ds, k - 1, t) { NeighboursOnly(ds, k - 1, k + 1, t); }
    FirstIsFound(ds, 0, k, t);
    StaysPut(ds, k + 1, t);
    StartOfFirst(ds);
    EndsWith(a, scale, from, segs, k);
    BeginsWith(a, scale, from, segs, k + 1);
  }

  /** For instance: 100 units in one second, and then a rest of one second. */
  lemma StopDeparts()
    ensures !VelocityHistoryFree(X, 1, 0.0, [Segment(1000, [100], [], [], []), Segment(1000, [], [], [], [])])
  {
    var segs := [Segment(1000, [100], [], [], []), Segment(1000, [], [], [], [])];
    assert Before(X, 1, 0.0, segs, 0) == 0.0;
    assert LastSpeed(X, 1, 0.0, segs, 0) == 100.0;
    assert FirstSpeed(X, 1, 0.0, segs, 1) == 0.0;
    VelocityHistoryFreeIff(X, 1, 0.0, segs);
  }
}
