// The trajectory builder: segments are appended to a growing buffer in place.
module TrajectoryBuilding {
  import opened Basics
  import opened Parsing
  import opened Buffers
  import opened TrajectoryFormat
  import opened Drawing
  import opened BuilderRuns

  /** The longest encoding of a segment that the builder writes. */
  const LONGEST: nat := 11

  /** Far below the largest size: what the builder has to be able to address. */
  const MEMORY: nat := 0x4000_0000_0000_0000

  /** The bytes of a line never exceed this. */
  function Bound(duration: nat): nat {
    if duration < MAX_DURATION_MSEC then LONGEST else LONGEST * (duration / 30000)
  }

  /** A segment in the making: its flags stand at `at`, its payload follows. */
  ghost predicate Making(store: seq<Byte>, before: seq<Byte>, flags: nat, payload: seq<Byte>) {
    |before| + 1 + |payload| <= |store| && store[..|before|] == before && store[|before|] == flags
    && store[|before| + 1..|before| + 1 + |payload|] == payload
  }

  class TrajectoryBuilder {
    var buffer: Buffer
    var last: Point
    var scale: nat

    ghost predicate Valid()
      reads this, buffer
    {
      buffer.Valid() && buffer.owned && 0 < scale <= 127 && HEADER_LENGTH <= buffer.used <= MEMORY
    }

    ghost function Contents(): seq<Byte>
      requires Valid()
      reads this, buffer, buffer.store
    {
      buffer.Contents()
    }

    /** The builder stands for this sketch. */
    ghost predicate Draws(s: Sketch)
      reads this, buffer, buffer.store
    {
      Valid() && Proper(s) && scale == s.scale && last == s.last && Contents() == Bytes(s)
    }

    /** A builder for trajectories of this scale. */
    static method Create(scale: nat, useYaw: bool) returns (status: Status, builder: TrajectoryBuilder?)
      requires scale <= 255
      ensures status == if scale == 0 || scale > 127 then EInval else Success
      ensures status == Success <==> builder != null
      ensures status == Success ==> builder.Draws(New(scale, useYaw))
      ensures status == Success ==> fresh(builder) && fresh(builder.buffer) && fresh(builder.buffer.store)
    {
      builder := null;
      if scale == 0 || scale > 127 { return EInval, null; }
      var buffer := new Buffer.Init(HEADER_LENGTH);
      buffer.store[0] := scale;
      if useYaw { buffer.store[0] := buffer.store[0] + 128; }  // sets the clear top bit
      builder := new TrajectoryBuilder.On(buffer, scale);
      EmptyBytes(scale, useYaw, buffer.Contents());
      status := Success;
    }

    constructor On(buffer: Buffer, scale: nat)
      requires buffer.Valid() && buffer.owned && buffer.used == HEADER_LENGTH && 0 < scale <= 127
      ensures Valid() && this.buffer == buffer && this.scale == scale && last == ORIGIN
    {
      this.buffer, this.scale, last := buffer, scale, ORIGIN;
    }

    method WriteCoordinate(offset: nat, coordinate: real) returns (status: Status, next: nat)
      requires Valid() && offset + 2 <= buffer.used
      modifies buffer.store
      ensures status == if Fits(coordinate, scale) then Success else EInval
      ensures status != Success ==> next == offset && buffer.store[..] == old(buffer.store[..])
      ensures status == Success ==>
                next == offset + 2 && At(buffer.store[..], offset, Words([Scaled(coordinate, scale)]))
      ensures forall i :: (0 <= i < offset || offset + 2 <= i < buffer.store.Length) ==>
                buffer.store[i] == old(buffer.store[i])
    {
      var scaled := (coordinate / scale as real).Floor;
      if scaled < INT16_MIN || scaled > INT16_MAX {
        return EInval, offset;
      }
      next := WriteInt16(buffer.store, offset, scaled);
      status := Success;
    }

    method WriteAngle(offset: nat, angle: real) returns (next: nat)
      requires Valid() && offset + 2 <= buffer.used
      modifies buffer.store
      ensures Int16(Tenths(angle))
      ensures next == offset + 2 && At(buffer.store[..], offset, Words([Tenths(angle)]))
      ensures forall i :: (0 <= i < offset || offset + 2 <= i < buffer.store.Length) ==>
                buffer.store[i] == old(buffer.store[i])
    {
      hide Fmod, Trunc;
      TenthsRange(angle);
      var scaled := Trunc(Fmod(angle, 360.0) * 10.0);
      if scaled < 0 { scaled := scaled + 3600; }
      next := WriteInt16(buffer.store, offset, scaled);
    }

    /** Sets the start; refused once a segment was written. A coordinate that does not fit
        leaves the ones before it written. */
    method SetStartPosition(start: Point) returns (status: Status)
      requires Valid()
      modifies this`last, buffer.store
      ensures Valid() && |Contents()| == |old(Contents())|
      ensures status == if |old(Contents())| != HEADER_LENGTH then Failure
                        else if PointFits(start, scale) then Success else EInval
      ensures status == Failure ==> Contents() == old(Contents())
      ensures status != Success ==> last == old(last)
      ensures status == EInval ==>
                var written := Words(FittingPrefix(start, scale));
                Contents() == [old(Contents())[0]] + written + old(Contents())[1 + |written|..]
      ensures status == Success ==>
                AllInt16(Raw(start, scale))
                && last == start && Contents() == [old(Contents())[0]] + Words(Raw(start, scale))
    {
      hide Words, Scaled, Tenths;
      if buffer.used != HEADER_LENGTH { return Failure; }
      ghost var head := buffer.store[0];
      var offset := 1;
      ghost var before := Contents();
      NoWords();
      status, offset := WriteCoordinate(offset, start.x);
      if status != Success {
        assert Contents() == [before[0]] + [] + before[1..];
        return;
      }
      status, offset := WriteCoordinate(offset, start.y);
      if status != Success {
        Spliced(before, Contents(), Words([Scaled(start.x, scale)]));
        return;
      }
      assert At(Contents(), 1, Words([Scaled(start.x, scale)]));
      status, offset := WriteCoordinate(offset, start.z);
      if status != Success {
        TwoWords(Contents(), Scaled(start.x, scale), Scaled(start.y, scale));
        Spliced(before, Contents(), Words([Scaled(start.x, scale), Scaled(start.y, scale)]));
        return;
      }
      offset := WriteAngle(offset, start.yaw);
      FourWords(buffer.store[..], Scaled(start.x, scale), Scaled(start.y, scale), Scaled(start.z, scale),
                Tenths(start.yaw));
      last := start;
    }

    /** One coordinate of a segment: written, with its flag set, unless it is unchanged. */
    method AppendField(at: nat, offset: nat, from: real, to: real, flag: nat,
                       ghost before: seq<Byte>, ghost flags: nat, ghost payload: seq<Byte>)
      returns (status: Status, next: nat)
      requires Valid() && at == |before| && offset == at + 1 + |payload| && offset + 2 <= buffer.used
      requires flags + flag < 256
      requires Making(buffer.store[..], before, flags, payload)
      modifies buffer.store
      ensures status == if from != to && !Fits(to, scale) then EInval else Success
      ensures status == Success ==> AllInt16(Changed(from, to, Scaled(to, scale)))
      ensures status == Success ==>
                var words := Words(Changed(from, to, Scaled(to, scale)));
                next == offset + |words|
                && Making(buffer.store[..], before, flags + (if from != to then flag else 0), payload + words)
      ensures buffer.store[..at] == before
    {
      hide Words, Scaled;
      status, next := Success, offset;
      if from != to {
        buffer.store[at] := buffer.store[at] + flag;
        status, next := WriteCoordinate(offset, to);
        if status == Success {
          ghost var words := Words([Scaled(to, scale)]);
          assert [Scaled(to, scale)] == Changed(from, to, Scaled(to, scale));
          assert buffer.store[..][|before| + 1..next] == payload + words;
        }
      } else {
        assert payload + Words([]) == payload;
      }
    }

    /** The flags, the duration and the changed coordinates, over the zeros just appended. */
    method FillSegment(target: Point, duration: nat, at: nat, ghost before: seq<Byte>)
      returns (status: Status, next: nat)
      requires Valid() && duration <= MAX_DURATION_MSEC && at == |before| && at + LONGEST == buffer.used
      requires buffer.store[..at] == before
      modifies buffer.store
      ensures buffer.store[..at] == before
      ensures status == if SegmentWritable(last, target, scale) then Success else EInval
      ensures status == Success ==>
                StorableSegment(LineSegment(last, target, duration, scale)) && next <= buffer.used
                && buffer.store[..next] == before + EncodeSegment(LineSegment(last, target, duration, scale))
    {
      hide Words, Scaled, Tenths, Le16, Changed, StorableSegment, EncodeSegment, Making, Fits;
      next := at + 1;
      buffer.store[at] := 0;
      next := WriteUint16(buffer.store, next, duration);
      ghost var p := Le16(duration);
      StartMaking(buffer.store[..], before, p);
      status, next := AppendField(at, next, last.x, target.x, 1, before, 0, p);
      if status != Success { return; }
      ghost var xs := Changed(last.x, target.x, Scaled(target.x, scale));
      ghost var flags := if last.x != target.x then 1 else 0;
      ChangedLength(last.x, target.x, Scaled(target.x, scale));
      status, next := AppendField(at, next, last.y, target.y, 4, before, flags, p + Words(xs));
      if status != Success { return; }
      ghost var ys := Changed(last.y, target.y, Scaled(target.y, scale));
      flags := flags + if last.y != target.y then 4 else 0;
      ChangedLength(last.y, target.y, Scaled(target.y, scale));
      status, next := AppendField(at, next, last.z, target.z, 16, before, flags, p + Words(xs) + Words(ys));
      if status != Success { return; }
      ghost var zs := Changed(last.z, target.z, Scaled(target.z, scale));
      flags := flags + if last.z != target.z then 16 else 0;
      ChangedLength(last.z, target.z, Scaled(target.z, scale));
      next := AppendYaw(at, next, last.yaw, target.yaw, before, flags, p + Words(xs) + Words(ys) + Words(zs));
      ChangedLength(last.yaw, target.yaw, Tenths(target.yaw));
      Made(last, target, duration, scale, buffer.store[..], before, next);
    }

    method AppendYaw(at: nat, offset: nat, from: real, to: real,
                     ghost before: seq<Byte>, ghost flags: nat, ghost payload: seq<Byte>) returns (next: nat)
      requires Valid() && at == |before| && offset == at + 1 + |payload| && offset + 2 <= buffer.used && flags < 64
      requires Making(buffer.store[..], before, flags, payload)
      modifies buffer.store
      ensures AllInt16(Changed(from, to, Tenths(to)))
      ensures var words := Words(Changed(from, to, Tenths(to)));
              next == offset + |words|
              && Making(buffer.store[..], before, flags + (if from != to then 64 else 0), payload + words)
      ensures buffer.store[..at] == before
    {
      hide Words, Tenths;
      next := offset;
      if from != to {
        buffer.store[at] := buffer.store[at] + 64;
        next := WriteAngle(offset, to);
        ghost var words := Words([Tenths(to)]);
        assert [Tenths(to)] == Changed(from, to, Tenths(to));
        assert buffer.store[..][|before| + 1..next] == payload + words;
      } else {
        assert payload + Words([]) == payload;
      }
    }

    /** A segment of at most a minute. When a coordinate does not fit, eleven bytes of the
        unfinished segment stay behind. */
    method AppendSegment(target: Point, duration: nat) returns (status: Status)
      requires Valid() && duration <= MAX_DURATION_MSEC && buffer.used + LONGEST <= MEMORY
      modifies this`last, buffer, buffer.store
      ensures Valid()
      ensures status == if old(SegmentWritable(last, target, scale)) then Success else EInval
      ensures status == Success ==>
                StorableSegment(LineSegment(old(last), target, duration, scale))
                && Contents() == old(Contents()) + EncodeSegment(LineSegment(old(last), target, duration, scale))
                && last == target
      ensures status != Success ==>
                last == old(last) && old(Contents()) < Contents() && |Contents()| == |old(Contents())| + LONGEST
      ensures |Contents()| <= |old(Contents())| + LONGEST
      ensures buffer.store == old(buffer.store) || fresh(buffer.store)
    {
      hide StorableSegment, EncodeSegment, LineSegment, SegmentWritable;
      ghost var before := Contents();
      var at := buffer.used;
      WrapsOnce(buffer.used, LONGEST);
      status := buffer.ExtendWithZeros(LONGEST);
      assert buffer.store[..at] == buffer.Contents()[..at] == before;
      var offset;
      status, offset := FillSegment(target, duration, at, before);
      assert buffer.Contents()[..at] == before;
      if status != Success { return; }
      status := buffer.Resize(offset);
      last := target;
    }

    /** A straight line to the target; one that lasts more than a minute is cut in two. When a
        coordinate of some piece does not fit, what was written before it stays, and so do
        eleven bytes of the unfinished segment. */
    method AppendLine(target: Point, duration: nat) returns (status: Status)
      requires Valid() && buffer.used + Bound(duration) <= MEMORY
      modifies this`last, buffer, buffer.store
      ensures Valid()
      ensures status == if old(Writable(last, target, duration, scale)) then Success else EInval
      ensures status == Success ==>
                AllStorable(Lines(old(last), target, duration, scale))
                && Contents() == old(Contents()) + EncodeAll(Lines(old(last), target, duration, scale))
                && last == target
      ensures status != Success ==> old(Contents()) < Contents()
      ensures status != Success && duration <= MAX_DURATION_MSEC ==> last == old(last)
      ensures |Contents()| <= |old(Contents())| + Bound(duration)
      ensures buffer.store == old(buffer.store) || fresh(buffer.store)
      decreases duration
    {
      hide EncodeSegment, LineSegment, SegmentWritable, StorableSegment, Midpoint, Lines, Writable, EncodeAll, Bound;
      if duration > MAX_DURATION_MSEC {
        var half := duration / 2;
        var midpoint := Midpoint(last, target);
        LineHalves(last, target, duration, scale);
        status := AppendLine(midpoint, half);
        if status != Success { return; }
        status := AppendLine(target, duration - half);
        return;
      }
      LineWhole(last, target, duration, scale);
      status := AppendSegment(target, duration);
    }

    /** Keeps the last position for the given time. */
    method HoldPositionFor(duration: nat) returns (status: Status)
      requires Valid() && buffer.used + Bound(duration) <= MEMORY
      modifies this`last, buffer, buffer.store
      ensures Valid() && status == Success && last == old(last)
      ensures AllStorable(Holds(duration)) && Contents() == old(Contents()) + EncodeAll(Holds(duration))
      ensures |Contents()| <= |old(Contents())| + Bound(duration)
      ensures buffer.store == old(buffer.store) || fresh(buffer.store)
    {
      hide EncodeSegment, StorableSegment, SegmentWritable, LineSegment, EncodeAll, Bound, Holds;
      HoldsStorable(duration);
      ghost var before := Contents();
      var rest: nat := duration;
      ghost var done: seq<Segment> := [];
      EncodeNothing();
      while rest > 0
        invariant Valid() && rest <= duration && last == old(last)
        invariant AllStorable(done) && Holds(duration) == done + Holds(rest)
        invariant Contents() == before + EncodeAll(done)
        invariant |Contents()| + (if rest > 0 then Bound(rest) else 0) <= |before| + Bound(duration)
        invariant buffer.store == old(buffer.store) || fresh(buffer.store)
      {
        var current := if rest > MAX_DURATION_MSEC then MAX_DURATION_MSEC else rest;
        ghost var h := LineSegment(last, last, current, scale);
        HoldStep(last, rest, current, scale, done);
        done := done + [h];
        rest := rest - current;
        status := AppendSegment(last, current);
      }
      NoHold();
      assert done + [] == done;
      status := Success;
    }

    /** One call of a run: an accepted call leaves the builder standing for the next sketch. */
    method Perform(call: Call, ghost s: Sketch) returns (status: Status)
      requires Draws(s) && Faithful(s) && buffer.used + Bound(CallTime(call)) <= MEMORY
      modifies this`last, buffer, buffer.store
      ensures status == Success <==> Apply(s, call).Some?
      ensures status == Success || status == EInval || (call.Start? && s.segs != [])
      ensures status == Success ==> Draws(Apply(s, call).value) && Faithful(Apply(s, call).value)
      ensures Valid() && |Contents()| <= |old(Contents())| + Bound(CallTime(call))
      ensures buffer.store == old(buffer.store) || fresh(buffer.store)
    {
      hide Scaled, Tenths, Decoded, Quantised, Lines, Holds, StorableSegment, Writable, PointFits,
        Bytes, EncodeAll, Words, Raw;
      AppliedBytes(s, call);
      if Apply(s, call).Some? { ApplyFaithful(s, call); }
      hide Faithful, Proper;
      match call
      case Start(p) => status := SetStartPosition(p);
      case Line(target, duration) => status := AppendLine(target, duration);
      case Hold(time) => status := HoldPositionFor(time);
    }

    /** Hands the bytes over and starts anew; only the header byte and the last position stay. */
    method Finish() returns (bytes: Buffer)
      requires Valid()
      modifies this`buffer
      ensures Valid() && bytes == old(buffer) && bytes.Valid() && bytes.Contents() == old(Contents())
      ensures fresh(buffer) && fresh(buffer.store)
      ensures Contents() == [old(Contents())[0]] + Zeros(HEADER_LENGTH - 1)
    {
      bytes := buffer;
      var header := buffer.store[0];
      buffer := new Buffer.Init(HEADER_LENGTH);
      buffer.store[0] := header;
    }
  }

  /** The coordinates of a start before the first one that does not fit. */
  function FittingPrefix(p: Point, scale: nat): (vs: seq<int>)
    requires scale > 0
    ensures AllInt16(vs) && |vs| <= 3
  {
    if !Fits(p.x, scale) then []
    else if !Fits(p.y, scale) then [Scaled(p.x, scale)]
    else if !Fits(p.z, scale) then [Scaled(p.x, scale), Scaled(p.y, scale)]
    else [Scaled(p.x, scale), Scaled(p.y, scale), Scaled(p.z, scale)]
  }

  /** Bytes written after the first one, all others as before. */
  lemma Spliced(before: seq<Byte>, after: seq<Byte>, written: seq<Byte>)
    requires |after| == |before| >= 1 + |written| && At(after, 1, written)
    requires forall i :: 0 <= i < |before| && !(1 <= i < 1 + |written|) ==> after[i] == before[i]
    ensures after == [before[0]] + written + before[1 + |written|..]
  {
    assert after == after[..1] + after[1..1 + |written|] + after[1 + |written|..];
  }

  lemma NoWords()
    ensures Words([]) == []
  {
  }

  lemma TwoWords(bytes: seq<Byte>, a: int, b: int)
    requires Int16(a) && Int16(b) && At(bytes, 1, Words([a])) && At(bytes, 3, Words([b]))
    ensures AllInt16([a, b]) && At(bytes, 1, Words([a, b]))
  {
    assert [a, b][1..] == [b] && [a][1..] == [] && [b][1..] == [];
    assert Words([a, b]) == Words([a]) + Words([b]);
    assert bytes[1..5] == bytes[1..3] + bytes[3..5];
  }

  lemma EncodeOne(s: Segment)
    requires StorableSegment(s)
    ensures AllStorable([s]) && EncodeAll([s]) == EncodeSegment(s)
  {
    hide EncodeSegment, StorableSegment;
    assert [s][1..] == [];
  }

  lemma HoldSegment(p: Point, duration: nat, scale: nat)
    requires scale > 0 && duration <= MAX_DURATION_MSEC
    ensures SegmentWritable(p, p, scale) && StorableSegment(LineSegment(p, p, duration, scale))
    ensures LineSegment(p, p, duration, scale) == Segment(duration, [], [], [], [])
  {
  }

  lemma LineHalves(last: Point, target: Point, duration: nat, scale: nat)
    requires scale > 0 && duration > MAX_DURATION_MSEC
    ensures var m, half := Midpoint(last, target), duration / 2;
            var first, second := Lines(last, m, half, scale), Lines(m, target, duration - half, scale);
            Lines(last, target, duration, scale) == first + second
            && (Writable(last, target, duration, scale) <==>
                  Writable(last, m, half, scale) && Writable(m, target, duration - half, scale))
            && (AllStorable(first) && AllStorable(second) ==>
                  AllStorable(first + second)
                  && EncodeAll(first + second) == EncodeAll(first) + EncodeAll(second))
            && Bound(half) + Bound(duration - half) <= Bound(duration) && Bound(half) >= LONGEST
  {
    hide LineSegment, Midpoint, SegmentWritable, StorableSegment, EncodeAll, Bound, AllStorable;
    var m, half := Midpoint(last, target), duration / 2;
    var first, second := Lines(last, m, half, scale), Lines(m, target, duration - half, scale);
    BoundHalves(duration);
    hide Lines;
    if AllStorable(first) && AllStorable(second) { EncodeConcat(first, second); }
  }

  lemma BoundHalves(duration: nat)
    requires duration > MAX_DURATION_MSEC
    ensures var half := duration / 2;
            Bound(half) + Bound(duration - half) <= Bound(duration) && Bound(half) >= LONGEST
  {
  }

  lemma LineWhole(last: Point, target: Point, duration: nat, scale: nat)
    requires scale > 0 && duration <= MAX_DURATION_MSEC
    ensures var s := LineSegment(last, target, duration, scale);
            Lines(last, target, duration, scale) == [s]
            && (Writable(last, target, duration, scale) <==> SegmentWritable(last, target, scale))
            && (StorableSegment(s) ==> AllStorable([s]) && EncodeAll([s]) == EncodeSegment(s))
    ensures Bound(duration) >= LONGEST
  {
    hide LineSegment, SegmentWritable, StorableSegment;
    var s := LineSegment(last, target, duration, scale);
    if StorableSegment(s) { EncodeOne(s); }
  }

  lemma NoHold()
    ensures Holds(0) == []
  {
  }

  lemma HoldStep(p: Point, rest: nat, current: nat, scale: nat, done: seq<Segment>)
    requires 0 < rest && current == (if rest > MAX_DURATION_MSEC then MAX_DURATION_MSEC else rest)
    requires scale > 0 && AllStorable(done)
    ensures var h := LineSegment(p, p, current, scale);
            SegmentWritable(p, p, scale) && StorableSegment(h)
            && AllStorable(done + [h]) && EncodeAll(done + [h]) == EncodeAll(done) + EncodeSegment(h)
            && done + Holds(rest) == done + [h] + Holds(rest - current)
    ensures LONGEST + (if rest > current then Bound(rest - current) else 0) <= Bound(rest)
  {
    hide EncodeAll, EncodeSegment;
    var h := LineSegment(p, p, current, scale);
    HoldSegment(p, current, scale);
    EncodeOne(h);
    EncodeConcat(done, [h]);
    assert Holds(rest) == [h] + Holds(rest - current);
    assert done + ([h] + Holds(rest - current)) == done + [h] + Holds(rest - current);
  }

  lemma ChangedLength(before: real, after: real, raw: int)
    ensures |Changed(before, after, raw)| == if before != after then 1 else 0
  {
  }

  lemma Made(last: Point, target: Point, duration: nat, scale: nat, store: seq<Byte>, before: seq<Byte>, next: nat)
    requires scale > 0 && duration <= MAX_DURATION_MSEC && SegmentWritable(last, target, scale)
    requires var s := LineSegment(last, target, duration, scale);
             AllInt16(s.x) && AllInt16(s.y) && AllInt16(s.z) && AllInt16(s.yaw)
             && Making(store, before, |s.x| + 4 * |s.y| + 16 * |s.z| + 64 * |s.yaw|,
                       Le16(duration) + Words(s.x) + Words(s.y) + Words(s.z) + Words(s.yaw))
             && next == |before| + 3 + 2 * (|s.x| + |s.y| + |s.z| + |s.yaw|)
    ensures StorableSegment(LineSegment(last, target, duration, scale)) && next <= |store|
    ensures store[..next] == before + EncodeSegment(LineSegment(last, target, duration, scale))
  {
    hide Words, Scaled, Tenths, Le16, SegmentWritable;
    LineStorable(last, target, duration, scale);
    var s := LineSegment(last, target, duration, scale);
    Regroup(Le16(duration), Words(s.x), Words(s.y), Words(s.z), Words(s.yaw));
    assert store[..next] == store[..|before|] + ([store[|before|]] + store[|before| + 1..next]);
  }

  lemma Regroup(a: seq<Byte>, b: seq<Byte>, c: seq<Byte>, d: seq<Byte>, e: seq<Byte>)
    ensures a + b + c + d + e == a + (b + (c + (d + e)))
  {
  }

  lemma StartMaking(store: seq<Byte>, before: seq<Byte>, payload: seq<Byte>)
    requires |before| < |store| && store[..|before|] == before && store[|before|] == 0
    requires At(store, |before| + 1, payload)
    ensures Making(store, before, 0, payload)
  {
  }

  lemma EmptyBytes(scale: nat, useYaw: bool, bytes: seq<Byte>)
    requires 0 < scale <= 127 && |bytes| == HEADER_LENGTH && bytes[0] == HeaderByte(scale, useYaw)
    requires forall i :: 1 <= i < HEADER_LENGTH ==> bytes[i] == 0
    ensures Proper(New(scale, useYaw)) && Bytes(New(scale, useYaw)) == bytes
  {
    FourZeros();
    assert EncodeAll([]) == [];
    assert bytes[1..] == Words([0, 0, 0, 0]);
    assert bytes == [bytes[0]] + bytes[1..];
  }

  lemma FourZeros()
    ensures Words([0, 0, 0, 0]) == [0, 0, 0, 0, 0, 0, 0, 0]
  {
    FourWordsAre(0, 0, 0, 0);
  }

  lemma FourWordsAre(a: int, b: int, c: int, d: int)
    requires Int16(a) && Int16(b) && Int16(c) && Int16(d)
    ensures AllInt16([a, b, c, d])
    ensures Words([a, b, c, d]) == Le16(Unsigned(a)) + Le16(Unsigned(b)) + Le16(Unsigned(c)) + Le16(Unsigned(d))
  {
    assert [a, b, c, d][1..] == [b, c, d] && [b, c, d][1..] == [c, d] && [c, d][1..] == [d] && [d][1..] == [];
    assert Words([c, d]) == Le16(Unsigned(c)) + (Le16(Unsigned(d)) + []);
  }

  lemma FourWords(bytes: seq<Byte>, a: int, b: int, c: int, d: int)
    requires Int16(a) && Int16(b) && Int16(c) && Int16(d)
    requires At(bytes, 1, Words([a])) && At(bytes, 3, Words([b]))
    requires At(bytes, 5, Words([c])) && At(bytes, 7, Words([d]))
    ensures AllInt16([a, b, c, d]) && At(bytes, 1, Words([a, b, c, d]))
  {
    OneWord(a); OneWord(b); OneWord(c); OneWord(d);
    FourWordsAre(a, b, c, d);
    hide Words, Le16, Unsigned;
    assert bytes[1..9] == bytes[1..3] + bytes[3..5] + bytes[5..7] + bytes[7..9];
  }

  lemma OneWord(a: int)
    requires Int16(a)
    ensures Words([a]) == Le16(Unsigned(a))
  {
    assert [a][1..] == [];
  }

  /** A start point that a builder of scale 1 refuses after it has written the first coordinate. */
  lemma StartDeparts()
    ensures var p := Point(5.0, 40000.0, 0.0, 0.0);
            !PointFits(p, 1) && FittingPrefix(p, 1) == [5]
  {
    assert 5.0 / 1.0 == 5.0 && 40000.0 / 1.0 == 40000.0;
  }

  /** A line that a builder of scale 1 refuses, after which it holds eleven bytes more, and the
      longest one in that direction that it draws. */
  lemma LineDeparts()
    ensures !Writable(ORIGIN, Point(32768.0, 0.0, 0.0, 0.0), 1000, 1)
    ensures Writable(ORIGIN, Point(32767.0, 0.0, 0.0, 0.0), 1000, 1)
  {
    assert 32768.0 / 1.0 == 32768.0 && 32767.0 / 1.0 == 32767.0;
  }
}
