// A trajectory as it is built and as it is stored, byte by byte.
module TrajectoryExample {
  import opened Basics
  import opened Parsing
  import opened TrajectoryFormat
  import opened Drawing
  import opened BuilderRuns
  import opened RoundTrip

  /** The calls: a start, a line on all axes, and lines that change some of them. */
  const CALLS := [Start(Point(10.0, 20.0, 15.0, 117.0)),
                  Line(Point(20.0, 40.0, 30.0, 210.0), 10000),
                  Line(Point(30.0, 40.0, 30.0, -30.0), 5000),
                  Line(Point(30.0, 50.0, 30.0, -30.0), 5000),
                  Line(Point(30.0, 50.0, 0.0, -30.0), 15000)]

  const SEGMENTS := [Segment(10000, [10], [20], [15], [2100]),
                     Segment(5000, [15], [], [], [3300]),
                     Segment(5000, [], [25], [], []),
                     Segment(15000, [], [], [0], [])]

  const SKETCH := Sketch(2, false, [5, 10, 7, 1170], SEGMENTS, Point(30.0, 50.0, 0.0, -30.0))

  lemma Angles()
    ensures Tenths(117.0) == 1170 && Tenths(210.0) == 2100 && Tenths(-30.0) == 3300
  {
    assert 117.0 / 360.0 == 0.325 && (210.0 / 360.0).Floor == 0 && (30.0 / 360.0).Floor == 0;
    assert Fmod(117.0, 360.0) == 117.0 && Fmod(210.0, 360.0) == 210.0 && Fmod(-30.0, 360.0) == -30.0;
  }

  lemma Coordinates()
    ensures Scaled(10.0, 2) == 5 && Scaled(20.0, 2) == 10 && Scaled(15.0, 2) == 7 && Scaled(30.0, 2) == 15
    ensures Scaled(40.0, 2) == 20 && Scaled(50.0, 2) == 25 && Scaled(0.0, 2) == 0
  {
    assert 10.0 / 2.0 == 5.0 && 20.0 / 2.0 == 10.0 && 15.0 / 2.0 == 7.5 && 30.0 / 2.0 == 15.0;
    assert 40.0 / 2.0 == 20.0 && 50.0 / 2.0 == 25.0 && 0.0 / 2.0 == 0.0;
  }

  lemma AfterLine(s: Sketch, target: Point, duration: nat, seg: Segment)
    requires s.scale == 2 && duration <= MAX_DURATION_MSEC && SegmentWritable(s.last, target, 2)
    requires seg == LineSegment(s.last, target, duration, 2)
    ensures Apply(s, Line(target, duration)) == Some(s.(segs := s.segs + [seg], last := target))
  {
  }

  /** The calls draw these segments. */
  lemma CallsDraw()
    ensures Run(New(2, false), CALLS) == Some(SKETCH)
  {
    hide Run, Scaled, Tenths, Lines, Writable;
    Angles();
    Coordinates();
    var s0 := New(2, false).(start := [5, 10, 7, 1170], last := Point(10.0, 20.0, 15.0, 117.0));
    assert Apply(New(2, false), CALLS[0]) == Some(s0);
    var s1 := s0.(segs := SEGMENTS[..1], last := CALLS[1].target);
    var s2 := s0.(segs := SEGMENTS[..2], last := CALLS[2].target);
    var s3 := s0.(segs := SEGMENTS[..3], last := CALLS[3].target);
    AfterLine(s0, CALLS[1].target, 10000, SEGMENTS[0]);
    AfterLine(s1, CALLS[2].target, 5000, SEGMENTS[1]);
    AfterLine(s2, CALLS[3].target, 5000, SEGMENTS[2]);
    AfterLine(s3, CALLS[4].target, 15000, SEGMENTS[3]);
    assert [] + [SEGMENTS[0]] == SEGMENTS[..1] && SEGMENTS[..1] + [SEGMENTS[1]] == SEGMENTS[..2];
    assert SEGMENTS[..2] + [SEGMENTS[2]] == SEGMENTS[..3] && SEGMENTS[..3] + [SEGMENTS[3]] == SEGMENTS;
    CallByCall(s0, s1, s2, s3);
  }

  lemma CallByCall(s0: Sketch, s1: Sketch, s2: Sketch, s3: Sketch)
    requires Apply(New(2, false), CALLS[0]) == Some(s0) && s0.scale == 2
    requires Apply(s0, CALLS[1]) == Some(s1) && s1.scale == 2
    requires Apply(s1, CALLS[2]) == Some(s2) && s2.scale == 2
    requires Apply(s2, CALLS[3]) == Some(s3) && s3.scale == 2 && Apply(s3, CALLS[4]) == Some(SKETCH)
    ensures Run(New(2, false), CALLS) == Some(SKETCH)
  {
    hide Apply, Run;
    RunStep(New(2, false), CALLS);
    RunStep(s0, CALLS[1..]);
    RunStep(s1, CALLS[2..]);
    RunStep(s2, CALLS[3..]);
    RunStep(s3, CALLS[4..]);
    assert CALLS[1..][1..] == CALLS[2..] && CALLS[2..][1..] == CALLS[3..] && CALLS[3..][1..] == CALLS[4..];
    EmptyRun(SKETCH, CALLS[4..][1..]);
  }

  lemma SegmentBytes()
    ensures AllStorable(SEGMENTS)
    ensures EncodeSegment(SEGMENTS[0]) == [0x55, 0x10, 0x27, 10, 0, 20, 0, 15, 0, 0x34, 8]
    ensures EncodeSegment(SEGMENTS[1]) == [0x41, 0x88, 0x13, 15, 0, 0xE4, 0x0C]
    ensures EncodeSegment(SEGMENTS[2]) == [0x04, 0x88, 0x13, 25, 0]
    ensures EncodeSegment(SEGMENTS[3]) == [0x10, 0x98, 0x3A, 0, 0]
  {
    SingleWords();
    hide Words;
  }

  lemma SingleWords()
    ensures Words([]) == [] && Words([10]) == [10, 0] && Words([20]) == [20, 0] && Words([15]) == [15, 0]
    ensures Words([2100]) == [0x34, 8] && Words([3300]) == [0xE4, 0x0C]
    ensures Words([25]) == [25, 0] && Words([0]) == [0, 0]
  {
    assert [10][1..] == [] && [20][1..] == [] && [15][1..] == [] && [2100][1..] == [];
    assert [3300][1..] == [] && [25][1..] == [] && [0][1..] == [];
  }

  /** And these are the bytes, which read as those segments. */
  lemma StoredBytes()
    ensures Proper(SKETCH)
    ensures Bytes(SKETCH)
            == [2] + [5, 0, 10, 0, 7, 0, 146, 4]
               + ([0x55, 0x10, 0x27, 10, 0, 20, 0, 15, 0, 0x34, 8]
                  + ([0x41, 0x88, 0x13, 15, 0, 0xE4, 0x0C] + ([0x04, 0x88, 0x13, 25, 0] + [0x10, 0x98, 0x3A, 0, 0])))
    ensures ReadAll(Bytes(SKETCH), HEADER_LENGTH) == Some(SEGMENTS)
  {
    hide EncodeSegment, StorableSegment, Words, ReadAll;
    SegmentBytes();
    StartWords();
    assert SEGMENTS[1..][1..] == [SEGMENTS[2], SEGMENTS[3]] && SEGMENTS[1..][1..][1..] == [SEGMENTS[3]];
    assert EncodeAll([SEGMENTS[3]]) == EncodeSegment(SEGMENTS[3]) by { assert [SEGMENTS[3]][1..] == []; }
    ReadBack(SKETCH);
  }

  lemma StartWords()
    ensures AllInt16([5, 10, 7, 1170]) && Words([5, 10, 7, 1170]) == [5, 0, 10, 0, 7, 0, 146, 4]
  {
    assert [5, 10, 7, 1170][1..] == [10, 7, 1170] && [10, 7, 1170][1..] == [7, 1170];
    assert [7, 1170][1..] == [1170] && [1170][1..] == [];
    assert Words([1170]) == [146, 4] && Words([7, 1170]) == [7, 0, 146, 4];
    assert Words([10, 7, 1170]) == [10, 0, 7, 0, 146, 4];
  }

  /** Curves of degree two are not stored: an axis has none, one, three or seven control values. */
  lemma CurveBytes()
    ensures var s := Segment(1000, [1, 2, 3], [1, 2, 3, 4, 5, 6, 7], [], []);
            StorableSegment(s) && EncodeSegment(s)[..3] == [0x0E, 0xE8, 0x03] && |EncodeSegment(s)| == 23
  {
    hide Words;
  }
}
