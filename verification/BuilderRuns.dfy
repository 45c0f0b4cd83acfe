// Runs of builder calls: what the finished bytes play back.
module BuilderRuns {
  import opened Basics
  import opened Parsing
  import opened TrajectoryFormat
  import opened Drawing

  /** What a builder has written so far, and the position it remembers as the last one. */
  datatype Sketch = Sketch(scale: nat, useYaw: bool, start: seq<int>, segs: seq<Segment>, last: Point)

  const ORIGIN: Point := Point(0.0, 0.0, 0.0, 0.0)

  datatype Call = Start(p: Point) | Line(target: Point, duration: nat) | Hold(time: nat)

  ghost predicate Proper(s: Sketch) {
    0 < s.scale <= 127 && |s.start| == 4 && AllInt16(s.start) && AllStorable(s.segs)
  }

  function HeaderByte(scale: nat, useYaw: bool): Byte
    requires scale <= 127
  {
    if useYaw then scale + 128 else scale
  }

  function Bytes(s: Sketch): (b: seq<Byte>)
    requires Proper(s)
    ensures |b| >= HEADER_LENGTH
  {
    [HeaderByte(s.scale, s.useYaw)] + Words(s.start) + EncodeAll(s.segs)
  }

  function Raw(p: Point, scale: nat): seq<int>
    requires scale > 0
  {
    [Scaled(p.x, scale), Scaled(p.y, scale), Scaled(p.z, scale), Tenths(p.yaw)]
  }

  /** A new builder. */
  function New(scale: nat, useYaw: bool): Sketch {
    Sketch(scale, useYaw, [0, 0, 0, 0], [], ORIGIN)
  }

  /** A builder call; None when it is refused. */
  function Apply(s: Sketch, call: Call): Option<Sketch>
    requires s.scale > 0
  {
    match call
    case Start(p) =>
      if s.segs == [] && PointFits(p, s.scale) then Some(s.(start := Raw(p, s.scale), last := p)) else None
    case Line(target, duration) =>
      if Writable(s.last, target, duration, s.scale) then
        Some(s.(segs := s.segs + Lines(s.last, target, duration, s.scale), last := target))
      else None
    case Hold(time) => Some(s.(segs := s.segs + Holds(time)))
  }

  function Run(s: Sketch, calls: seq<Call>): Option<Sketch>
    requires s.scale > 0
    decreases |calls|
  {
    if calls == [] then Some(s)
    else
      match Apply(s, calls[0])
      case None => None
      case Some(next) => Run(next, calls[1..])
  }

  function CallTime(call: Call): nat {
    match call
    case Start(_) => 0
    case Line(_, duration) => duration
    case Hold(time) => time
  }

  function RunTime(calls: seq<Call>): nat {
    if calls == [] then 0 else CallTime(calls[0]) + RunTime(calls[1..])
  }

  /** The start point that a header is read as. */
  function StartPoint(scale: nat, start: seq<int>): Point
    requires |start| == 4
  {
    Point(Decoded(X, scale, start[0]), Decoded(Y, scale, start[1]),
          Decoded(Z, scale, start[2]), Decoded(Yaw, scale, start[3]))
  }

  /** Where playback of what is written ends. */
  function Reached(s: Sketch): Point
    requires |s.start| == 4
  {
    After(s.scale, StartPoint(s.scale, s.start), s.segs)
  }

  /** Playback ends at the quantised last position. */
  ghost predicate Faithful(s: Sketch) { Proper(s) && Reached(s) == Quantised(s.last, s.scale) }

  lemma NewFaithful(scale: nat, useYaw: bool)
    requires 0 < scale <= 127
    ensures Faithful(New(scale, useYaw))
  {
    QuantisedOrigin(scale);
    assert After(scale, ORIGIN, []) == ORIGIN;
  }

  lemma QuantisedOrigin(scale: nat)
    requires scale > 0
    ensures Quantised(ORIGIN, scale) == ORIGIN
    ensures StartPoint(scale, [0, 0, 0, 0]) == ORIGIN
  {
    assert 0 * scale == 0;
    assert 0.0 / scale as real == 0.0;
  }

  /** What the header says is read back as the quantised start. */
  lemma StartQuantised(p: Point, scale: nat)
    requires scale > 0 && PointFits(p, scale)
    ensures |Raw(p, scale)| == 4 && AllInt16(Raw(p, scale)) && StartPoint(scale, Raw(p, scale)) == Quantised(p, scale)
  {
    hide Scaled, Tenths, Decoded;
    TenthsRange(p.yaw);
  }

  /** Every accepted call keeps playback faithful, lasts exactly its own duration, and leaves the
      segments written before it in place. */
  lemma ApplyFaithful(s: Sketch, call: Call)
    requires Faithful(s) && Apply(s, call).Some?
    ensures var t := Apply(s, call).value;
            Faithful(t) && t.scale == s.scale && t.useYaw == s.useYaw && s.segs <= t.segs
            && Sum(Durations(t.segs)) == Sum(Durations(s.segs)) + CallTime(call)
            && (s.segs != [] ==> t.start == s.start)
  {
    hide Scaled, Tenths, Decoded, Quantised, Lines, Holds, Raw, StorableSegment, PointFits, Writable;
    match call
    case Start(p) =>
      StartQuantised(p, s.scale);
      assert After(s.scale, Quantised(p, s.scale), []) == Quantised(p, s.scale);
    case Line(target, duration) =>
      LinesStorable(s.last, target, duration, s.scale);
      LineDurations(s.last, target, duration, s.scale);
      AfterLines(s.last, target, duration, s.scale);
      Appended(s, Lines(s.last, target, duration, s.scale));
    case Hold(time) =>
      HoldCost(time);
      AfterHolds(s.scale, Reached(s), time);
      Appended(s, Holds(time));
  }

  lemma Appended(s: Sketch, more: seq<Segment>)
    requires Proper(s) && AllStorable(more)
    ensures AllStorable(s.segs + more)
    ensures Reached(s.(segs := s.segs + more)) == After(s.scale, Reached(s), more)
    ensures Sum(Durations(s.segs + more)) == Sum(Durations(s.segs)) + Sum(Durations(more))
  {
    hide StorableSegment, Decoded;
    StorableConcat(s.segs, more);
    AfterConcat(s.scale, StartPoint(s.scale, s.start), s.segs, more);
    DurationsConcat(s.segs, more);
    SumConcat(Durations(s.segs), Durations(more));
  }

  /** A whole run of accepted calls stays faithful and lasts as long as its calls together. */
  lemma {:induction false} RunFaithful(s: Sketch, calls: seq<Call>)
    requires s.scale > 0 && Faithful(s) && Run(s, calls).Some?
    ensures var t := Run(s, calls).value;
            Faithful(t) && t.scale == s.scale && t.useYaw == s.useYaw && s.segs <= t.segs
            && Sum(Durations(t.segs)) == Sum(Durations(s.segs)) + RunTime(calls)
            && (s.segs != [] ==> t.start == s.start)
    decreases |calls|
  {
    hide Apply, Faithful, Durations, Sum;
    if calls != [] {
      ApplyFaithful(s, calls[0]);
      RunFaithful(Apply(s, calls[0]).value, calls[1..]);
    }
  }

  lemma {:induction false} RunSplit(s: Sketch, calls: seq<Call>, i: nat)
    requires s.scale > 0 && i <= |calls| && Run(s, calls).Some?
    ensures Run(s, calls[..i]).Some? && Run(s, calls[..i]).value.scale > 0
    ensures Run(Run(s, calls[..i]).value, calls[i..]) == Run(s, calls)
    decreases i
  {
    if i == 0 {
      assert calls[0..] == calls;
    } else {
      var next := Apply(s, calls[0]).value;
      RunSplit(next, calls[1..], i - 1);
      assert calls[..i][0] == calls[0] && calls[..i][1..] == calls[1..][..i - 1];
      assert calls[1..][i - 1..] == calls[i..];
    }
  }

  // ---- the remembered position and the start ----

  lemma AppliedScale(s: Sketch, call: Call)
    requires s.scale > 0
    ensures Apply(s, call).Some? ==> Apply(s, call).value.scale == s.scale
  {
  }

  lemma AppliedLast(s: Sketch, call: Call)
    requires s.scale > 0 && Apply(s, call).Some?
    ensures Apply(s, call).value.last == match call
                                          case Start(p) => p
                                          case Line(target, _) => target
                                          case Hold(_) => s.last
  {
  }

  lemma {:induction false} RunSnoc(s: Sketch, calls: seq<Call>, call: Call)
    requires s.scale > 0 && Run(s, calls).Some?
    ensures Run(s, calls).value.scale > 0
    ensures Run(s, calls + [call]) == Apply(Run(s, calls).value, call)
    decreases |calls|
  {
    hide Apply;
    if calls == [] {
      assert [call][1..] == [] && calls + [call] == [call];
      AppliedScale(s, call);
    } else {
      AppliedScale(s, calls[0]);
      RunSnoc(Apply(s, calls[0]).value, calls[1..], call);
      assert (calls + [call])[1..] == calls[1..] + [call];
    }
  }

  /** The position that is remembered after some calls. */
  function LastOf(p: Point, calls: seq<Call>): Point
    decreases |calls|
  {
    if calls == [] then p
    else LastOf(match calls[0] case Start(q) => q case Line(q, _) => q case Hold(_) => p, calls[1..])
  }

  lemma {:induction false} RunLast(s: Sketch, calls: seq<Call>)
    requires s.scale > 0 && Run(s, calls).Some?
    ensures Run(s, calls).value.last == LastOf(s.last, calls)
    ensures Settled(calls, 0) ==> Run(s, calls).value.start == s.start
    decreases |calls|
  {
    if calls != [] {
      AppliedLast(s, calls[0]);
      AppliedScale(s, calls[0]);
      if Settled(calls, 0) { KeepsStart(s, calls[0]); }
      hide Apply;
      RunLast(Apply(s, calls[0]).value, calls[1..]);
    }
  }

  lemma KeepsStart(s: Sketch, call: Call)
    requires s.scale > 0 && !call.Start? && Apply(s, call).Some?
    ensures Apply(s, call).value.start == s.start
  {
  }

  lemma {:induction false} LastOfConcat(p: Point, a: seq<Call>, b: seq<Call>)
    ensures LastOf(p, a + b) == LastOf(LastOf(p, a), b)
    ensures RunTime(a + b) == RunTime(a) + RunTime(b)
    decreases |a|
  {
    if a == [] {
      assert a + b == b;
    } else {
      LastOfConcat(match a[0] case Start(q) => q case Line(q, _) => q case Hold(_) => p, a[1..], b);
      assert (a + b)[1..] == a[1..] + b;
    }
  }

  /** From call i on no call sets the start point again. */
  predicate Settled(calls: seq<Call>, i: nat) { forall j :: i <= j < |calls| ==> !calls[j].Start? }

  /** Once a segment is written no later call can. */
  lemma {:induction false} SettledOnceWritten(s: Sketch, calls: seq<Call>)
    requires s.scale > 0 && s.segs != [] && Run(s, calls).Some?
    ensures Settled(calls, 0)
    decreases |calls|
  {
    hide Lines, Holds, Writable, Raw, PointFits;
    if calls != [] {
      SettledOnceWritten(Apply(s, calls[0]).value, calls[1..]);
      forall j | 0 <= j < |calls| ensures !calls[j].Start? {
        if j > 0 { assert calls[j] == calls[1..][j - 1]; }
      }
    }
  }

  /** Playback of the finished bytes, at the time when the first `i` calls are over, is at the
      quantised position that the builder had been given by then, for every i from which on the
      start point stays: the error of one call never carries over to the next, however many
      coordinates were omitted because they had not changed. */
  lemma PlaybackOfRun(scale: nat, useYaw: bool, calls: seq<Call>, i: nat)
    requires 0 < scale <= 127 && i <= |calls|
    requires Run(New(scale, useYaw), calls).Some? && Run(New(scale, useYaw), calls[..i]).Some?
    ensures var now := Run(New(scale, useYaw), calls).value;
            Proper(now) && |now.start| == 4 && ReadAll(Bytes(now), HEADER_LENGTH) == Some(now.segs)
    ensures var early, now := Run(New(scale, useYaw), calls[..i]).value, Run(New(scale, useYaw), calls).value;
            early.segs <= now.segs && Sum(Durations(now.segs[..|early.segs|])) == RunTime(calls[..i])
            && (early.segs != [] ==> Settled(calls, i))
            && (Settled(calls, i) ==>
                  After(scale, StartPoint(scale, now.start), now.segs[..|early.segs|])
                  == Quantised(early.last, scale))
  {
    hide Run, Quantised, Decoded, StorableSegment, Apply;
    var s := New(scale, useYaw);
    NewFaithful(scale, useYaw);
    RunSplit(s, calls, i);
    var early, now := Run(s, calls[..i]).value, Run(s, calls).value;
    RunFaithful(s, calls[..i]);
    RunFaithful(early, calls[i..]);
    RunFaithful(s, calls);
    assert Sum(Durations([])) == 0;
    assert now.segs[..|early.segs|] == early.segs;
    if early.segs != [] { SettledOnceWritten(early, calls[i..]); }
    SettledRest(calls, i);
    RunLast(early, calls[i..]);
    ReadBack(now);
  }

  lemma SettledRest(calls: seq<Call>, i: nat)
    requires i <= |calls|
    ensures Settled(calls[i..], 0) <==> Settled(calls, i)
  {
    if Settled(calls[i..], 0) {
      forall j | i <= j < |calls| ensures !calls[j].Start? { assert calls[j] == calls[i..][j - i]; }
    }
  }

  lemma EmptyRun(s: Sketch, calls: seq<Call>)
    requires calls == [] && s.scale > 0
    ensures Run(s, calls) == Some(s)
  {
  }

  /** The finished bytes read as the header and the segments that were written. */
  lemma ReadBack(s: Sketch)
    requires Proper(s)
    ensures ReadAll(Bytes(s), HEADER_LENGTH) == Some(s.segs)
    ensures ReadWords(Bytes(s), 1, 4) == s.start
    ensures Bytes(s)[0] % 128 == s.scale && (Bytes(s)[0] >= 128 <==> s.useYaw)
  {
    hide EncodeAll, StorableSegment, ReadAll, Words;
    var b := Bytes(s);
    assert b[HEADER_LENGTH..] == EncodeAll(s.segs);
    assert b[1..1 + 8] == Words(s.start);
    ReadWrittenWords(b, 1, s.start);
    ReadAllIff(b, HEADER_LENGTH, s.segs);
  }

  /** The segments that a call adds. */
  function Added(s: Sketch, call: Call): seq<Segment>
    requires s.scale > 0
  {
    match call
    case Start(_) => []
    case Line(target, duration) => Lines(s.last, target, duration, s.scale)
    case Hold(time) => Holds(time)
  }

  /** What an accepted call does to the bytes. */
  lemma AppliedBytes(s: Sketch, call: Call)
    requires Faithful(s)
    ensures |Bytes(s)| == HEADER_LENGTH <==> s.segs == []
    ensures Apply(s, call).Some? ==>
              var t := Apply(s, call).value;
              Proper(t) && AllStorable(Added(s, call))
              && Bytes(t) == if call.Start? then [Bytes(s)[0]] + Words(t.start)
                             else Bytes(s) + EncodeAll(Added(s, call))
  {
    hide Scaled, Tenths, Decoded, Quantised, Lines, Holds, StorableSegment, Writable, PointFits, Raw, EncodeSegment,
      Words, EncodeAll;
    EncodeNothing();
    if s.segs != [] { EncodedSome(s.segs); }
    if Apply(s, call).Some? {
      ApplyFaithful(s, call);
      match call
      case Start(p) =>
        assert Words(Raw(p, s.scale)) + [] == Words(Raw(p, s.scale));
      case Line(target, duration) =>
        LinesStored(s, target, duration);
        EncodeConcat(s.segs, Lines(s.last, target, duration, s.scale));
      case Hold(time) =>
        HoldsStorable(time);
        EncodeConcat(s.segs, Holds(time));
    }
  }

  lemma EncodeNothing()
    ensures EncodeAll([]) == []
  {
  }

  lemma EncodedSome(segs: seq<Segment>)
    requires AllStorable(segs) && segs != []
    ensures |EncodeAll(segs)| >= 3
  {
    hide EncodeSegment;
    EncodedNotEmpty(segs[0]);
  }

  lemma LinesStored(s: Sketch, target: Point, duration: nat)
    requires s.scale > 0 && Writable(s.last, target, duration, s.scale)
    ensures AllStorable(Lines(s.last, target, duration, s.scale))
  {
    LinesStorable(s.last, target, duration, s.scale);
  }

  // ---- a builder that is used again ----

  /** After the bytes were handed over the builder has an empty body, a zero start and the
      scale of before, but it still remembers the last position. */
  function Reused(s: Sketch): Sketch { Sketch(s.scale, s.useYaw, [0, 0, 0, 0], [], s.last) }

  /** Lines drawn from here on lead to the quantised target. */
  ghost predicate DrawsFaithfully(s: Sketch)
    requires s.scale > 0
  {
    forall target: Point, duration: nat :: LeadsThere(s, target, duration)
  }

  ghost predicate LeadsThere(s: Sketch, target: Point, duration: nat)
    requires s.scale > 0
  {
    var r := Apply(s, Line(target, duration));
    r.Some? && |r.value.start| == 4 ==> Reached(r.value) == Quantised(target, s.scale)
  }

  /** A reused builder draws faithfully exactly when the position it was left at is quantised
      to the origin. */
  lemma ReusedBuilderIff(s: Sketch)
    requires Proper(s)
    ensures DrawsFaithfully(Reused(s)) <==> Quantised(s.last, s.scale) == ORIGIN
  {
    hide Quantised, Decoded, Lines, Writable, StorableSegment;
    var r := Reused(s);
    QuantisedOrigin(s.scale);
    assert Reached(r) == ORIGIN;
    if Quantised(s.last, s.scale) == ORIGIN {
      forall target: Point, duration: nat ensures LeadsThere(r, target, duration) {
        var next := Apply(r, Line(target, duration));
        if next.Some? { ApplyFaithful(r, Line(target, duration)); }
      }
    } else {
      Stays(s);
      assert r.segs + Lines(s.last, s.last, 1, s.scale) == Lines(s.last, s.last, 1, s.scale);
      assert !LeadsThere(r, s.last, 1);
    }
  }

  lemma Stays(s: Sketch)
    requires Proper(s)
    ensures Writable(s.last, s.last, 1, s.scale)
    ensures Lines(s.last, s.last, 1, s.scale) == [Segment(1, [], [], [], [])]
    ensures After(s.scale, ORIGIN, [Segment(1, [], [], [], [])]) == ORIGIN
  {
    assert After(s.scale, ORIGIN, []) == ORIGIN;
  }

  /** For instance: a builder left at (1000, 0, 0) with scale 1 starts its next trajectory at
      the origin and holds there, although it was told to hold where it was. */
  lemma ReusedBuilderDeparts()
    ensures !DrawsFaithfully(Reused(Sketch(1, false, [0, 0, 0, 0], [], Point(1000.0, 0.0, 0.0, 0.0))))
  {
    var s := Sketch(1, false, [0, 0, 0, 0], [], Point(1000.0, 0.0, 0.0, 0.0));
    assert Quantised(s.last, 1).x == 1000.0;
    ReusedBuilderIff(s);
  }
}
