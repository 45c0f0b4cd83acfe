// The trajectory player: it decodes one segment at a time and keeps it.
module TrajectoryPlayback {
  import opened Basics
  import opened Parsing
  import opened Buffers
  import opened TrajectoryFormat
  import opened Timeline
  import opened Bezier
  import opened Polynomials
  import opened TrajectoryMotion
  import opened TrajectoryHistory
  import BuilderRuns

  datatype Poly4 = Poly4(x: seq<real>, y: seq<real>, z: seq<real>, yaw: seq<real>)
  {
    function On(a: Axis): seq<real> {
      match a
      case X => x
      case Y => y
      case Z => z
      case Yaw => yaw
    }
  }

  /** The current segment: where it stands in the buffer, when it is played, and its position,
      velocity and acceleration as polynomials on [0, 1]. */
  datatype Piece = Piece(
    start: nat, length: nat,
    startMsec: nat, durationMsec: nat, endMsec: nat,
    startSec: real, durationSec: Time, endSec: Time,
    poly: Poly4, dpoly: Poly4, ddpoly: Poly4)

  /** Bytes that hold these segments, whose durations, zero included, add up to 32 bits; or bytes
      with a zero scale, which say that there are none. */
  ghost predicate WellFormed(bytes: seq<Byte>, headerLength: nat, scale: nat, segs: seq<Segment>) {
    Sum(Durations(segs)) < UINT32_MODULUS
    && if scale == 0 then segs == []
       else headerLength <= |bytes| && ReadAll(bytes, headerLength) == Some(segs)
  }

  ghost predicate Timed(p: Piece, ds: seq<nat>, k: nat) {
    k <= |ds| && p.startMsec == StartMsec(ds, k) && p.startSec == Sec(p.startMsec)
    && if k < |ds| then
         p.length > 0 && p.durationMsec == ds[k] && p.durationSec == Finite(Sec(p.durationMsec))
         && p.endMsec == StartMsec(ds, k + 1) && p.endSec == Finite(Sec(p.endMsec))
       else p.length == 0 && p.durationSec == Infinite && p.endSec == Infinite
  }

  /** The rest of the segments is read from where this one stands. */
  ghost predicate Stands(p: Piece, bytes: seq<Byte>, scale: nat, segs: seq<Segment>, k: nat) {
    k <= |segs|
    && (scale == 0 || (p.start <= |bytes| && ReadAll(bytes, p.start) == Some(segs[k..])
                       && (k < |segs| ==> p.length == SegmentLength(bytes[p.start]))))
  }

  ghost predicate Moves(p: Piece, scale: nat, from: Point, segs: seq<Segment>, k: nat) {
    k <= |segs| && Small(p.poly) && Small(p.dpoly) && Small(p.ddpoly)
    && forall a: Axis ::
         p.poly.On(a) == PieceCoefficients(a, scale, from.On(a), segs, k)
         && p.dpoly.On(a) == VelocityCoefficients(a, scale, from.On(a), segs, k)
         && p.ddpoly.On(a) == AccelerationCoefficients(a, scale, from.On(a), segs, k)
  }

  class Trajectory {
    const buffer: Buffer
    const scale: nat
    const useYaw: bool
    const start: Point
    const headerLength: nat

    /** Reads the header of a trajectory block. */
    constructor InitFromBytes(buffer: Buffer)
      requires buffer.Valid() && buffer.used >= HEADER_LENGTH
      ensures this.buffer == buffer && headerLength == HEADER_LENGTH
      ensures scale == buffer.Contents()[0] % 128 && (useYaw <==> buffer.Contents()[0] >= 128)
      ensures start == BuilderRuns.StartPoint(scale, ReadWords(buffer.Contents(), 1, 4))
      ensures IntegerPoint(start)
    {
      hide ReadWords, Decoded, Word;
      var header := buffer.store[0];
      var offset := 1;
      var x, y, z, yaw;
      x, offset := ParseCoordinate(buffer, header % 128, offset);
      y, offset := ParseCoordinate(buffer, header % 128, offset);
      z, offset := ParseCoordinate(buffer, header % 128, offset);
      yaw, offset := ParseAngle(buffer, offset);
      ReadWordsAt(buffer.Contents(), 1, 4, 0);
      ReadWordsAt(buffer.Contents(), 1, 4, 1);
      ReadWordsAt(buffer.Contents(), 1, 4, 2);
      ReadWordsAt(buffer.Contents(), 1, 4, 3);
      this.buffer, scale, useYaw, headerLength := buffer, header % 128, header >= 128, offset;
      start := Point(x, y, z, yaw);
      HeaderIsInt(header % 128, ReadWords(buffer.Contents(), 1, 4));
    }

    /** A trajectory without bytes: the vehicle stays at the origin. */
    constructor InitEmpty()
      ensures scale == 1 && start == BuilderRuns.ORIGIN && Holds([]) && IntegerPoint(start)
    {
      buffer := new Buffer.Init(0);
      scale, useYaw, headerLength, start := 1, false, 0, BuilderRuns.ORIGIN;
      new;
      assert Durations([]) == [] && Sum([]) == 0;
    }

    ghost predicate Holds(segs: seq<Segment>)
      reads buffer, buffer.store
    {
      buffer.Valid() && IntegerPoint(start) && WellFormed(buffer.Contents(), headerLength, scale, segs)
    }

    /** There is nothing to play: no bytes, or a header without a scale. */
    method IsEmpty() returns (empty: bool)
      requires buffer.Valid()
      ensures empty <==> buffer.Contents() == [] || buffer.Contents()[0] % 128 == 0
    {
      empty := buffer.used == 0 || buffer.store[0] % 128 == 0;
    }
  }

  /** The coordinates of a point are integers. */
  predicate IntegerPoint(p: Point) { IsInt(p.x) && IsInt(p.y) && IsInt(p.z) }

  /** A start point that is read from a header has integer coordinates. */
  lemma HeaderIsInt(scale: nat, start: seq<int>)
    requires |start| == 4
    ensures IntegerPoint(BuilderRuns.StartPoint(scale, start))
  {
  }

  lemma SameWord(buf: array<Byte>, used: nat, offset: nat)
    requires offset + 2 <= used <= buf.Length
    ensures Word(buf[..], offset) == Word(buf[..used], offset)
  {
  }

  method ParseCoordinate(buffer: Buffer, scale: nat, offset: nat) returns (c: real, next: nat)
    requires buffer.Valid() && offset + 2 <= buffer.used
    ensures next == offset + 2 && c == Decoded(X, scale, Signed(Word(buffer.Contents(), offset)))
    ensures c == Decoded(Y, scale, Signed(Word(buffer.Contents(), offset)))
    ensures c == Decoded(Z, scale, Signed(Word(buffer.Contents(), offset)))
  {
    var v;
    v, next := ParseInt16(buffer.store, offset);
    SameWord(buffer.store, buffer.used, offset);
    c := (v * scale) as real;
  }

  method ParseAngle(buffer: Buffer, offset: nat) returns (angle: real, next: nat)
    requires buffer.Valid() && offset + 2 <= buffer.used
    ensures next == offset + 2
    ensures forall scale: nat :: angle == Decoded(Yaw, scale, Signed(Word(buffer.Contents(), offset)))
  {
    var v;
    v, next := ParseInt16(buffer.store, offset);
    SameWord(buffer.store, buffer.used, offset);
    var tenths := if v >= 0 then v % 3600 else -((-v) % 3600);  // the remainder has the sign of v
    if tenths < 0 { tenths := tenths + 3600; }
    RemainderOfNegative(v);
    angle := tenths as real / 10.0;
  }

  lemma RemainderOfNegative(v: int)
    ensures var r := -((-v) % 3600); v % 3600 == if r < 0 then r + 3600 else r
  {
  }

  /** One axis of a segment: its control values, behind the value that the axis starts with,
      make a Bezier curve. */
  method ParseAxis(buffer: Buffer, a: Axis, scale: nat, offset: nat, n: nat, from: real)
    returns (poly: seq<real>, next: nat)
    requires buffer.Valid() && offset + 2 * n <= buffer.used && n <= 7
    ensures next == offset + 2 * n
    ensures poly == Coefficients(a, scale, from, ReadWords(buffer.Contents(), offset, n))
  {
    hide ReadWords, Decoded, Word, BezierCoefs, Eval, Curve;
    var coords := [from];
    next := offset;
    ghost var bytes := buffer.Contents();
    for i := 0 to n
      invariant next == offset + 2 * i && |coords| == i + 1 && coords[0] == from
      invariant buffer.Valid() && buffer.Contents() == bytes
      invariant forall j :: 0 <= j < i ==> coords[j + 1] == Decoded(a, scale, Signed(Word(bytes, offset + 2 * j)))
    {
      var c;
      if a == Yaw {
        c, next := ParseAngle(buffer, next);
      } else {
        c, next := ParseCoordinate(buffer, scale, next);
      }
      coords := coords + [c];
    }
    ghost var vs := ReadWords(bytes, offset, n);
    forall j | 0 <= j < n ensures coords[j + 1] == Decoded(a, scale, vs[j]) {
      ReadWordsAt(bytes, offset, n, j);
    }
    assert coords == Points(a, scale, from, vs);
    poly := BezierPolynomial(coords);
  }

  /** The polynomial of control points run through in one unit of time. */
  method BezierPolynomial(coords: seq<real>) returns (cs: seq<real>)
    requires 1 <= |coords| <= MAX_COEFFS
    ensures cs == BezierCoefs(coords, 1.0)
  {
    var p := new Poly();
    p.MakeBezier(1.0, coords);
    assert Used(coords) == coords;
    cs := p.coeffs[..p.numCoeffs];
  }

  /** The derivative by time of a polynomial on [0, 1]. */
  method DeriveAndScale(cs: seq<real>, duration: real) returns (ds: seq<real>)
    requires |cs| <= MAX_COEFFS
    ensures ds == PerSecond(cs, duration) && |ds| <= MAX_COEFFS
  {
    hide Deriv, Weigh;
    var p := new Poly();
    p.Make(cs);
    assert Used(cs) == cs;
    p.Differentiate();
    assert p.Contents() == Derivative(cs);
    if AbsReal(duration) > 0.000001 {
      p.Scale(1.0 / duration);
      assert p.Contents() == ScaledBy(Derivative(cs), 1.0 / duration);
    }
    ds := p.coeffs[..p.numCoeffs];
  }

  /** Evaluates a polynomial that is held by value. */
  method EvalPolynomial(cs: seq<real>, u: real) returns (r: real)
    requires |cs| <= MAX_COEFFS
    ensures r == Eval(cs, u)
  {
    var p := new Poly();
    p.Make(cs);
    assert Used(cs) == cs;
    r := p.EvalAt(u);
  }

  /** Reading segment k of a well-formed block, and the segment after it. */
  lemma SegmentHolds(bytes: seq<Byte>, segs: seq<Segment>, k: nat, offset: nat)
    requires k < |segs| && offset <= |bytes| && ReadAll(bytes, offset) == Some(segs[k..])
    ensures offset < |bytes| && SegmentFits(bytes, offset) && ReadSegment(bytes, offset) == segs[k]
    ensures offset + SegmentLength(bytes[offset]) <= |bytes|
    ensures ReadAll(bytes, offset + SegmentLength(bytes[offset])) == Some(segs[k + 1..])
  {
    hide SegmentLength, ReadSegment;
    var rest := segs[k..];
    assert rest[0] == segs[k] && rest[1..] == segs[k + 1..];
  }

  ghost predicate Small(p: Poly4) { forall a: Axis :: |p.On(a)| <= MAX_COEFFS }

  /** The four derivatives. */
  method Derive(p: Poly4, duration: real) returns (d: Poly4)
    requires Small(p)
    ensures Small(d) && forall a: Axis :: d.On(a) == PerSecond(p.On(a), duration)
  {
    hide PerSecond;
    assert |p.On(X)| <= MAX_COEFFS && |p.On(Y)| <= MAX_COEFFS && |p.On(Z)| <= MAX_COEFFS
           && |p.On(Yaw)| <= MAX_COEFFS;
    var x := DeriveAndScale(p.x, duration);
    var y := DeriveAndScale(p.y, duration);
    var z := DeriveAndScale(p.z, duration);
    var yaw := DeriveAndScale(p.yaw, duration);
    d := Poly4(x, y, z, yaw);
  }

  /** Evaluates the four polynomials. */
  method Evaluate(p: Poly4, u: real) returns (r: Point)
    requires Small(p)
    ensures forall a: Axis :: r.On(a) == Eval(p.On(a), u)
  {
    assert |p.On(X)| <= MAX_COEFFS && |p.On(Y)| <= MAX_COEFFS && |p.On(Z)| <= MAX_COEFFS
           && |p.On(Yaw)| <= MAX_COEFFS;
    var x := EvalPolynomial(p.x, u);
    var y := EvalPolynomial(p.y, u);
    var z := EvalPolynomial(p.z, u);
    var yaw := EvalPolynomial(p.yaw, u);
    r := Point(x, y, z, yaw);
  }

  lemma CoefficientsSize(a: Axis, scale: nat, from: real, vs: seq<int>)
    ensures |Coefficients(a, scale, from, vs)| == |vs| + 1
  {
    hide Decoded, Coef;
  }

  /** Decodes the segment at an offset. */
  method ParseSegment(buffer: Buffer, scale: nat, offset: nat, from: Point)
    returns (duration: nat, poly: Poly4, next: nat)
    requires buffer.Valid() && SegmentFits(buffer.Contents(), offset)
    ensures var s := ReadSegment(buffer.Contents(), offset);
            duration == s.duration && next == offset + SegmentLength(buffer.Contents()[offset])
            && Small(poly)
            && forall a: Axis :: poly.On(a) == Coefficients(a, scale, from.On(a), s.On(a))
  {
    hide ReadWords, Word, Count, Coefficients;
    var header := buffer.store[offset];
    ghost var bytes := buffer.Contents();
    next := offset + 1;
    duration, next := ParseUint16(buffer.store, next);
    SameWord(buffer.store, buffer.used, offset + 1);
    CountsSmall(header);
    var x, y, z, yaw;
    x, next := ParseAxis(buffer, X, scale, next, Count(header % 4), from.x);
    y, next := ParseAxis(buffer, Y, scale, next, Count(header / 4 % 4), from.y);
    z, next := ParseAxis(buffer, Z, scale, next, Count(header / 16 % 4), from.z);
    yaw, next := ParseAxis(buffer, Yaw, scale, next, Count(header / 64), from.yaw);
    poly := Poly4(x, y, z, yaw);
    ghost var s := ReadSegment(bytes, offset);
    forall a: Axis ensures |poly.On(a)| <= MAX_COEFFS && poly.On(a) == Coefficients(a, scale, from.On(a), s.On(a)) {
      CoefficientsSize(a, scale, from.On(a), s.On(a));
    }
  }

  lemma CountsSmall(header: Byte)
    ensures CountX(header) <= 7 && CountY(header) <= 7 && CountZ(header) <= 7 && CountYaw(header) <= 7
  {
  }

  /** Where a trajectory stands before segment k. */
  function PointBefore(scale: nat, from: Point, segs: seq<Segment>, k: nat): Point
    requires k <= |segs|
  {
    Point(Before(X, scale, from.x, segs, k), Before(Y, scale, from.y, segs, k),
          Before(Z, scale, from.z, segs, k), Before(Yaw, scale, from.yaw, segs, k))
  }

  lemma SmallPiece(p: Piece, scale: nat, from: Point, segs: seq<Segment>, k: nat)
    requires Moves(p, scale, from, segs, k)
    ensures Small(p.poly) && Small(p.dpoly) && Small(p.ddpoly)
  {
  }

  /** The end of a piece is where the next one begins. */
  lemma PieceEnds(p: Piece, scale: nat, from: Point, segs: seq<Segment>, k: nat, end: Point)
    requires k < |segs| && Moves(p, scale, from, segs, k)
    requires forall a: Axis :: end.On(a) == Eval(p.poly.On(a), 1.0)
    ensures end == PointBefore(scale, from, segs, k + 1)
  {
    hide Eval, Coefficients, EndOn, PerSecond;
    forall a: Axis ensures end.On(a) == Before(a, scale, from.On(a), segs, k + 1) {
      CoefficientsAreCurve(a, scale, Before(a, scale, from.On(a), segs, k), segs[k].On(a), 1.0);
    }
    assert end.On(X) == end.x && end.On(Y) == end.y && end.On(Z) == end.z && end.On(Yaw) == end.yaw;
  }

  lemma Remaining(bytes: seq<Byte>, segs: seq<Segment>, k: nat, offset: nat, scale: nat)
    requires k <= |segs| && (scale == 0 ==> segs == [])
    requires scale == 0 || (offset <= |bytes| && ReadAll(bytes, offset) == Some(segs[k..]))
    ensures scale == 0 || offset == |bytes| <==> k == |segs|
  {
    if scale != 0 {
      assert segs[k..] == [] <==> k == |segs|;
    }
  }

  lemma Holding(p: Piece, scale: nat, from: Point, segs: seq<Segment>, at: Point)
    requires at == PointBefore(scale, from, segs, |segs|)
    requires p.poly == Poly4([at.x], [at.y], [at.z], [at.yaw])
    requires p.dpoly == p.ddpoly == Poly4([], [], [], [])
    ensures Moves(p, scale, from, segs, |segs|)
  {
    hide Before;
  }

  lemma Moving(p: Piece, scale: nat, from: Point, segs: seq<Segment>, k: nat)
    requires k < |segs| && Small(p.poly) && Small(p.dpoly) && Small(p.ddpoly)
    requires forall a: Axis ::
               p.poly.On(a) == Coefficients(a, scale, PointBefore(scale, from, segs, k).On(a), segs[k].On(a))
    requires forall a: Axis :: p.dpoly.On(a) == PerSecond(p.poly.On(a), Sec(segs[k].duration))
    requires forall a: Axis :: p.ddpoly.On(a) == PerSecond(p.dpoly.On(a), Sec(segs[k].duration))
    ensures Moves(p, scale, from, segs, k)
  {
    hide Before, Coefficients, PerSecond, Sec;
  }

  /** Decodes the segment at an offset; beyond the end the last position is held for ever. */
  method DecodePiece(trajectory: Trajectory, offset: nat, startTime: nat, from: Point,
                     ghost segs: seq<Segment>, ghost k: nat) returns (p: Piece)
    requires trajectory.Holds(segs) && k <= |segs|
    requires startTime == StartMsec(Durations(segs), k)
    requires from == PointBefore(trajectory.scale, trajectory.start, segs, k)
    requires trajectory.scale == 0
             || (offset <= trajectory.buffer.used
                 && ReadAll(trajectory.buffer.Contents(), offset) == Some(segs[k..]))
    ensures Timed(p, Durations(segs), k)
    ensures Stands(p, trajectory.buffer.Contents(), trajectory.scale, segs, k)
    ensures Moves(p, trajectory.scale, trajectory.start, segs, k)
  {
    hide ReadAll, ReadSegment, SegmentFits, SegmentLength, StartMsec, PerSecond, Coefficients, Sec, Moves, Sum,
      PointBefore;
    ghost var bytes := trajectory.buffer.Contents();
    Remaining(bytes, segs, k, offset, trajectory.scale);
    if offset >= trajectory.buffer.used || trajectory.scale == 0 {
      var remaining := (UINT32_MAX - startTime) % 0x10000;
      var none := Poly4([], [], [], []);
      var still := Poly4([from.x], [from.y], [from.z], [from.yaw]);
      p := Piece(offset, 0, startTime, remaining, UINT32_MAX, Sec(startTime), Infinite, Infinite,
                 still, none, none);
      Holding(p, trajectory.scale, trajectory.start, segs, from);
      return;
    }
    SegmentHolds(bytes, segs, k, offset);
    NoWrap(Durations(segs), k);
    LengthPositive(bytes[offset]);
    var duration, poly, next := ParseSegment(trajectory.buffer, trajectory.scale, offset, from);
    var end := (startTime + duration) % UINT32_MODULUS;
    var dpoly := Derive(poly, Sec(duration));
    var ddpoly := Derive(dpoly, Sec(duration));
    p := Piece(offset, next - offset, startTime, duration, end,
               Sec(startTime), Finite(Sec(duration)), Finite(Sec(end)), poly, dpoly, ddpoly);
    Moving(p, trajectory.scale, trajectory.start, segs, k);
  }

  lemma LengthPositive(header: Byte)
    ensures SegmentLength(header) > 0
  {
  }

  class Player {
    const trajectory: Trajectory
    var current: Piece
    /** What the trajectory holds, and which of its segments is cached. */
    ghost const segs: seq<Segment>
    ghost var index: nat

    ghost predicate Valid()
      reads this, trajectory.buffer, trajectory.buffer.store
    {
      trajectory.Holds(segs)
      && Timed(current, Durations(segs), index)
      && Stands(current, trajectory.buffer.Contents(), trajectory.scale, segs, index)
      && Moves(current, trajectory.scale, trajectory.start, segs, index)
    }

    constructor (trajectory: Trajectory, ghost segs: seq<Segment>)
      requires trajectory.Holds(segs)
      ensures Valid() && this.trajectory == trajectory && this.segs == segs && index == 0
    {
      this.trajectory, this.segs := trajectory, segs;
      var zero := Poly4([], [], [], []);
      current := Piece(0, 0, 0, 0, 0, 0.0, Finite(0.0), Finite(0.0), zero, zero, zero);  // all zero bytes
      new;
      Rewind();
    }

    method Rewind()
      requires trajectory.Holds(segs)
      modifies this
      ensures Valid() && index == 0
    {
      hide ReadAll;
      StartOfFirst(Durations(segs));
      assert segs[0..] == segs;
      BuildCurrentSegment(trajectory.headerLength, 0, trajectory.start, 0);
    }

    method BuildNextSegment()
      requires Valid() && index < |segs|
      modifies this
      ensures Valid() && index == old(index) + 1
    {
      hide ReadAll, SegmentLength, StartMsec, Moves;
      SegmentHolds(trajectory.buffer.Contents(), segs, index, current.start);
      SmallPiece(current, trajectory.scale, trajectory.start, segs, index);
      var end := Evaluate(current.poly, 1.0);
      PieceEnds(current, trajectory.scale, trajectory.start, segs, index, end);
      BuildCurrentSegment(current.start + current.length, current.endMsec, end, index + 1);
    }

    /** Replaces the current segment by the one at an offset. */
    method BuildCurrentSegment(offset: nat, startTime: nat, from: Point, ghost k: nat)
      requires trajectory.Holds(segs) && k <= |segs|
      requires startTime == StartMsec(Durations(segs), k)
      requires from == PointBefore(trajectory.scale, trajectory.start, segs, k)
      requires trajectory.scale == 0
               || (offset <= trajectory.buffer.used
                   && ReadAll(trajectory.buffer.Contents(), offset) == Some(segs[k..]))
      modifies this
      ensures Valid() && index == k
    {
      hide ReadAll, StartMsec, Sum, Timed, Stands, Moves;
      current := DecodePiece(trajectory, offset, startTime, from, segs, k);
      index := k;
    }

    method HasMoreSegments() returns (more: bool)
      requires Valid()
      ensures more <==> index < |segs|
    {
      more := current.length > 0;
    }

    /** Moves to the segment that contains the time. */
    method SeekToTime(time: Time) returns (relative: real)
      requires Valid()
      modifies this
      ensures Valid()
      ensures index == Land(Durations(segs), old(index), Clip(time))
      ensures relative == RelativeTime(Durations(segs), index, Clip(time))
    {
      hide StartMsec, Sec, Trajectory.Holds, Moves, Stands;
      ghost var ds := Durations(segs);
      var t := if time.Finite? && time.t <= 0.0 then Finite(0.0) else time;
      ghost var settled := false;
      StartOfFirst(ds);
      SecSum(0, 0);
      while true
        invariant Valid()
        invariant settled ==> !StartsAfter(ds, index, t)
        invariant Land(ds, index, t) == Land(ds, old(index), t)
        decreases !settled, |segs| - index
      {
        if t.Finite? && current.startSec > t.t {
          Rewind();
          settled := true;
        } else if current.endSec.Finite? && (t.Infinite? || current.endSec.t < t.t) {
          BuildNextSegment();
          settled := true;
        } else {
          if t.Infinite? {
            relative := 1.0;
          } else if current.durationSec.Infinite? {
            relative := 0.0;  // a finite time over an infinite one
          } else if AbsReal(current.durationSec.t) > 0.000001 {
            relative := (t.t - current.startSec) / current.durationSec.t;
          } else {
            relative := 0.5;
          }
          return;
        }
      }
    }

    /** The position. On every axis whose joints meet it is that of the motion, whatever was asked
        before. */
    method GetPositionAt(time: Time) returns (p: Point)
      requires Valid()
      modifies this
      ensures Valid()
      ensures var ds := Durations(segs);
              forall a: Axis ::
                p.On(a) == FromPiece(a, trajectory.scale, trajectory.start.On(a), segs,
                                     Land(ds, old(index), Clip(time)), Clip(time))
      ensures forall a: Axis ::
                JointsMeet(a, trajectory.scale, trajectory.start.On(a), segs) ==>
                  p.On(a) == PositionAt(a, trajectory.scale, trajectory.start.On(a), segs, time)
    {
      hide JointsMeet, Land, PieceCoefficients, RelativeTime, Eval, Timed, Stands, PositionAt, Trajectory.Holds;
      ghost var k := index;
      var relative := SeekToTime(time);
      SmallPiece(current, trajectory.scale, trajectory.start, segs, index);
      p := Evaluate(current.poly, relative);
      forall a: Axis | JointsMeet(a, trajectory.scale, trajectory.start.On(a), segs)
        ensures p.On(a) == PositionAt(a, trajectory.scale, trajectory.start.On(a), segs, time)
      {
        SameFromAnyPiece(a, trajectory.scale, trajectory.start.On(a), segs, k, time);
      }
    }

    method GetVelocityAt(time: Time) returns (v: Point)
      requires Valid()
      modifies this
      ensures Valid()
      ensures var ds := Durations(segs);
              forall a: Axis ::
                v.On(a) == VelocityFrom(a, trajectory.scale, trajectory.start.On(a), segs,
                                        Land(ds, old(index), Clip(time)), Clip(time))
    {
      hide Land, VelocityCoefficients, RelativeTime, Eval, Timed, Stands, Trajectory.Holds;
      var relative := SeekToTime(time);
      SmallPiece(current, trajectory.scale, trajectory.start, segs, index);
      v := Evaluate(current.dpoly, relative);
    }

    method GetAccelerationAt(time: Time) returns (v: Point)
      requires Valid()
      modifies this
      ensures Valid()
      ensures var ds := Durations(segs);
              forall a: Axis ::
                v.On(a) == AccelerationFrom(a, trajectory.scale, trajectory.start.On(a), segs,
                                            Land(ds, old(index), Clip(time)), Clip(time))
    {
      hide Land, AccelerationCoefficients, RelativeTime, Eval, Timed, Stands, Trajectory.Holds;
      var relative := SeekToTime(time);
      SmallPiece(current, trajectory.scale, trajectory.start, segs, index);
      v := Evaluate(current.ddpoly, relative);
    }

    /** The duration of the whole trajectory. */
    method GetTotalDurationMsec() returns (duration: nat)
      requires Valid()
      modifies this
      ensures Valid() && duration == Sum(Durations(segs))
    {
      hide StartMsec, Sec, Moves, Stands, Trajectory.Holds;
      ghost var ds := Durations(segs);
      StartOfFirst(ds);
      Rewind();
      duration := 0;
      var more := HasMoreSegments();
      while more
        invariant Valid() && duration == StartMsec(ds, index) && (more <==> index < |segs|)
        decreases |segs| - index
      {
        InBounds();
        NoWrap(ds, index);
        duration := (duration + current.durationMsec) % UINT32_MODULUS;
        BuildNextSegment();
        more := HasMoreSegments();
      }
    }

    lemma InBounds()
      requires trajectory.Holds(segs)
      ensures Sum(Durations(segs)) < UINT32_MODULUS
    {
    }
  }
}
