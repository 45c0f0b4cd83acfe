// The trajectory block: a header with scale and start point, then segments, each with a
// duration and up to seven control values for each axis.
module TrajectoryFormat {
  import opened Basics
  import opened Parsing

  const HEADER_LENGTH: nat := 9

  datatype Axis = X | Y | Z | Yaw

  datatype Point = Point(x: real, y: real, z: real, yaw: real)
  {
    function On(a: Axis): real {
      match a
      case X => x
      case Y => y
      case Z => z
      case Yaw => yaw
    }
  }

  /** A segment as it is stored. An axis without control values keeps its value. */
  datatype Segment = Segment(duration: nat, x: seq<int>, y: seq<int>, z: seq<int>, yaw: seq<int>)
  {
    function On(a: Axis): seq<int> {
      match a
      case X => x
      case Y => y
      case Z => z
      case Yaw => yaw
    }
  }

  /** The number of control values of a two-bit format: constant, linear, cubic, degree seven. */
  function Count(format: nat): (n: nat)
    requires format < 4
    ensures Format(n) == format
  {
    if format == 3 then 7 else if format == 2 then 3 else format
  }

  function Format(n: nat): (f: nat)
    ensures f < 4
  {
    if n == 7 then 3 else if n == 3 then 2 else if n == 1 then 1 else 0
  }

  predicate Storable(vs: seq<int>) { AllInt16(vs) && Count(Format(|vs|)) == |vs| }

  predicate StorableSegment(s: Segment) {
    s.duration < 0x10000 && Storable(s.x) && Storable(s.y) && Storable(s.z) && Storable(s.yaw)
  }

  function SegmentHeader(s: Segment): Byte {
    Format(|s.x|) + 4 * Format(|s.y|) + 16 * Format(|s.z|) + 64 * Format(|s.yaw|)
  }

  function EncodeSegment(s: Segment): (b: seq<Byte>)
    requires StorableSegment(s)
    ensures |b| == 3 + 2 * (|s.x| + |s.y| + |s.z| + |s.yaw|)
  {
    [SegmentHeader(s)] + (Le16(s.duration) + (Words(s.x) + (Words(s.y) + (Words(s.z) + Words(s.yaw)))))
  }

  predicate AllStorable(segs: seq<Segment>) { forall i :: 0 <= i < |segs| ==> StorableSegment(segs[i]) }

  function EncodeAll(segs: seq<Segment>): seq<Byte>
    requires AllStorable(segs)
  {
    if segs == [] then [] else EncodeSegment(segs[0]) + EncodeAll(segs[1..])
  }

  // ---- reading ----

  function CountX(header: Byte): nat { Count(header % 4) }

  function CountY(header: Byte): nat { Count(header / 4 % 4) }

  function CountZ(header: Byte): nat { Count(header / 16 % 4) }

  function CountYaw(header: Byte): nat { Count(header / 64) }

  function SegmentLength(header: Byte): (n: nat)
    ensures n >= 3
  {
    3 + 2 * (CountX(header) + CountY(header) + CountZ(header) + CountYaw(header))
  }

  predicate SegmentFits(bytes: seq<Byte>, at: nat) {
    at < |bytes| && at + SegmentLength(bytes[at]) <= |bytes|
  }

  function ReadSegment(bytes: seq<Byte>, at: nat): (s: Segment)
    requires SegmentFits(bytes, at)
    ensures |s.x| == CountX(bytes[at]) && |s.y| == CountY(bytes[at])
    ensures |s.z| == CountZ(bytes[at]) && |s.yaw| == CountYaw(bytes[at])
  {
    var h := bytes[at];
    var y := at + 3 + 2 * CountX(h);
    var z := y + 2 * CountY(h);
    var w := z + 2 * CountZ(h);
    Segment(Word(bytes, at + 1), ReadWords(bytes, at + 3, CountX(h)), ReadWords(bytes, y, CountY(h)),
            ReadWords(bytes, z, CountZ(h)), ReadWords(bytes, w, CountYaw(h)))
  }

  /** Reads segments up to the exact end of the bytes; None if the last one is cut short. */
  function ReadAll(bytes: seq<Byte>, at: nat): Option<seq<Segment>>
    requires at <= |bytes|
    decreases |bytes| - at
  {
    if at == |bytes| then Some([])
    else if !SegmentFits(bytes, at) then None
    else
      match ReadAll(bytes, at + SegmentLength(bytes[at]))
      case None => None
      case Some(rest) => Some([ReadSegment(bytes, at)] + rest)
  }

  lemma HeaderFormats(s: Segment)
    requires StorableSegment(s)
    ensures var h := SegmentHeader(s);
            CountX(h) == |s.x| && CountY(h) == |s.y| && CountZ(h) == |s.z| && CountYaw(h) == |s.yaw|
  {
    HeaderDigits(Format(|s.x|), Format(|s.y|), Format(|s.z|), Format(|s.yaw|));
  }

  lemma HeaderDigits(a: nat, b: nat, c: nat, d: nat)
    requires a < 4 && b < 4 && c < 4 && d < 4
    ensures var h := a + 4 * b + 16 * c + 64 * d;
            h < 256 && h % 4 == a && h / 4 % 4 == b && h / 16 % 4 == c && h / 64 == d
  {
  }

  lemma DigitsHeader(h: Byte)
    ensures h == h % 4 + 4 * (h / 4 % 4) + 16 * (h / 16 % 4) + 64 * (h / 64)
  {
  }

  /** A segment is read back exactly, wherever it stands. */
  lemma ReadEncoded(bytes: seq<Byte>, at: nat, s: Segment)
    requires StorableSegment(s) && At(bytes, at, EncodeSegment(s))
    ensures SegmentFits(bytes, at) && SegmentLength(bytes[at]) == |EncodeSegment(s)|
    ensures ReadSegment(bytes, at) == s
  {
    hide SegmentHeader, CountX, CountY, CountZ, CountYaw, Words, ReadWords, Le16, Word, At;
    HeaderFormats(s);
    var w := Words(s.yaw);
    var z := Words(s.z) + w;
    var y := Words(s.y) + z;
    var x := Words(s.x) + y;
    AtSplit(bytes, at, [SegmentHeader(s)], Le16(s.duration) + x);
    AtSplit(bytes, at + 1, Le16(s.duration), x);
    AtSplit(bytes, at + 3, Words(s.x), y);
    AtSplit(bytes, at + 3 + 2 * |s.x|, Words(s.y), z);
    AtSplit(bytes, at + 3 + 2 * |s.x| + 2 * |s.y|, Words(s.z), w);
    AtIndex(bytes, at, [SegmentHeader(s)], 0);
    AtBound(bytes, at, EncodeSegment(s));
    ReadWritten(bytes, at + 1, s.duration);
    ReadWrittenWords(bytes, at + 3, s.x);
    ReadWrittenWords(bytes, at + 3 + 2 * |s.x|, s.y);
    ReadWrittenWords(bytes, at + 3 + 2 * |s.x| + 2 * |s.y|, s.z);
    ReadWrittenWords(bytes, at + 3 + 2 * |s.x| + 2 * |s.y| + 2 * |s.z|, s.yaw);
  }

  /** Every segment that is read is one that can be written, and it would be written as the
      bytes that it was read from. */
  lemma EncodedRead(bytes: seq<Byte>, at: nat)
    requires SegmentFits(bytes, at)
    ensures StorableSegment(ReadSegment(bytes, at))
    ensures bytes[at..at + SegmentLength(bytes[at])] == EncodeSegment(ReadSegment(bytes, at))
  {
    hide CountX, CountY, CountZ, CountYaw, Words, ReadWords, Word, Le16, Format, Count;
    var s, h := ReadSegment(bytes, at), bytes[at];
    var y := at + 3 + 2 * |s.x|;
    var z := y + 2 * |s.y|;
    var w := z + 2 * |s.z|;
    var e := w + 2 * |s.yaw|;
    WordBytes(bytes, at + 1);
    HeaderRead(s, h);
    WrittenRead(bytes, at + 3, |s.x|);
    WrittenRead(bytes, y, |s.y|);
    WrittenRead(bytes, z, |s.z|);
    WrittenRead(bytes, w, |s.yaw|);
    hide SegmentLength, SegmentHeader;
    Pieces(bytes, at, y, z, w, e);
  }

  lemma Pieces(bytes: seq<Byte>, at: nat, y: nat, z: nat, w: nat, e: nat)
    requires at + 3 <= y <= z <= w <= e <= |bytes|
    ensures bytes[at..e] == [bytes[at]] + (bytes[at + 1..at + 3]
                            + (bytes[at + 3..y] + (bytes[y..z] + (bytes[z..w] + bytes[w..e]))))
  {
    Cut(bytes, z, w, e);
    Cut(bytes, y, z, e);
    Cut(bytes, at + 3, y, e);
    Cut(bytes, at + 1, at + 3, e);
    Cut(bytes, at, at + 1, e);
    assert bytes[at..at + 1] == [bytes[at]];
  }

  lemma Cut(bytes: seq<Byte>, a: nat, b: nat, c: nat)
    requires a <= b <= c <= |bytes|
    ensures bytes[a..c] == bytes[a..b] + bytes[b..c]
  {
  }

  lemma HeaderRead(s: Segment, h: Byte)
    requires |s.x| == CountX(h) && |s.y| == CountY(h) && |s.z| == CountZ(h) && |s.yaw| == CountYaw(h)
    ensures SegmentHeader(s) == h
    ensures Count(Format(|s.x|)) == |s.x| && Count(Format(|s.y|)) == |s.y|
    ensures Count(Format(|s.z|)) == |s.z| && Count(Format(|s.yaw|)) == |s.yaw|
  {
    DigitsHeader(h);
  }

  /** One step of reading, in both directions. */
  lemma ReadAllStep(bytes: seq<Byte>, at: nat, segs: seq<Segment>)
    requires at < |bytes|
    ensures ReadAll(bytes, at) == Some(segs) <==>
              SegmentFits(bytes, at) && segs != [] && segs[0] == ReadSegment(bytes, at)
              && ReadAll(bytes, at + SegmentLength(bytes[at])) == Some(segs[1..])
  {
    hide ReadSegment, SegmentLength;
    if SegmentFits(bytes, at) {
      var s, rest := ReadSegment(bytes, at), ReadAll(bytes, at + SegmentLength(bytes[at]));
      if rest.Some? { assert ([s] + rest.value)[1..] == rest.value; }
      if segs != [] { assert segs == [segs[0]] + segs[1..]; }
    }
  }

  lemma {:induction false} ReadIsEncoded(bytes: seq<Byte>, at: nat, segs: seq<Segment>)
    requires at <= |bytes| && ReadAll(bytes, at) == Some(segs)
    ensures AllStorable(segs) && bytes[at..] == EncodeAll(segs)
    decreases |bytes| - at
  {
    hide StorableSegment, EncodeSegment, SegmentLength, ReadSegment;
    if at < |bytes| {
      ReadAllStep(bytes, at, segs);
      hide ReadAll;
      var n := SegmentLength(bytes[at]);
      EncodedRead(bytes, at);
      ReadIsEncoded(bytes, at + n, segs[1..]);
      HeadAndTail(segs, ReadSegment(bytes, at));
      Cut(bytes, at, at + n, |bytes|);
    }
  }

  lemma {:induction false} EncodedIsRead(bytes: seq<Byte>, at: nat, segs: seq<Segment>)
    requires at <= |bytes| && AllStorable(segs) && bytes[at..] == EncodeAll(segs)
    ensures ReadAll(bytes, at) == Some(segs)
    decreases |segs|
  {
    hide StorableSegment, EncodeSegment, SegmentLength, ReadSegment, SegmentFits, At;
    if segs == [] {
      assert |bytes[at..]| == 0;
    } else {
      var first := EncodeSegment(segs[0]);
      EncodedNotEmpty(segs[0]);
      TailOf(bytes, at, first, EncodeAll(segs[1..]));
      AtBound(bytes, at, first);
      hide EncodeAll, ReadAll;
      ReadEncoded(bytes, at, segs[0]);
      EncodedIsRead(bytes, at + |first|, segs[1..]);
      ReadAllStep(bytes, at, segs);
    }
  }

  /** Reading and writing are inverse: the bytes from `at` on read as exactly these segments
      if and only if they are the encoding of exactly these segments. */
  lemma ReadAllIff(bytes: seq<Byte>, at: nat, segs: seq<Segment>)
    requires at <= |bytes|
    ensures ReadAll(bytes, at) == Some(segs) <==> AllStorable(segs) && bytes[at..] == EncodeAll(segs)
  {
    hide ReadAll, EncodeAll, StorableSegment;
    if ReadAll(bytes, at) == Some(segs) { ReadIsEncoded(bytes, at, segs); }
    if AllStorable(segs) && bytes[at..] == EncodeAll(segs) { EncodedIsRead(bytes, at, segs); }
  }

  lemma TailOf(bytes: seq<Byte>, at: nat, first: seq<Byte>, rest: seq<Byte>)
    requires at <= |bytes| && bytes[at..] == first + rest
    ensures At(bytes, at, first) && bytes[at + |first|..] == rest
    ensures first != [] ==> at + |first| > at
  {
    var tail := bytes[at..];
    assert tail[..|first|] == first && tail[|first|..] == rest;
    assert bytes[at..at + |first|] == tail[..|first|];
    assert bytes[at + |first|..] == tail[|first|..];
  }

  lemma HeadAndTail(segs: seq<Segment>, s: Segment)
    requires segs != [] && s == segs[0]
    ensures StorableSegment(s) && AllStorable(segs[1..]) ==> AllStorable(segs)
  {
    forall i | 0 <= i < |segs| && StorableSegment(s) && AllStorable(segs[1..])
      ensures StorableSegment(segs[i])
    {
      if i > 0 { assert segs[i] == segs[1..][i - 1]; }
    }
  }

  lemma EncodedNotEmpty(s: Segment)
    requires StorableSegment(s)
    ensures |EncodeSegment(s)| >= 3
  {
  }

  lemma {:induction false} EncodeConcat(a: seq<Segment>, b: seq<Segment>)
    requires AllStorable(a) && AllStorable(b)
    ensures AllStorable(a + b) && EncodeAll(a + b) == EncodeAll(a) + EncodeAll(b)
  {
    hide StorableSegment, EncodeSegment;
    if a == [] {
      assert a + b == b;
      assert EncodeAll(a) == [];
    } else {
      EncodeConcat(a[1..], b);
      var c := a + b;
      assert c[0] == a[0] && c[1..] == a[1..] + b;
      assert EncodeAll(c) == EncodeSegment(a[0]) + EncodeAll(c[1..]);
    }
  }

  // ---- meaning ----

  /** The value of a stored number on an axis: a scaled coordinate, or an angle in degrees. */
  function Decoded(a: Axis, scale: nat, v: int): real {
    if a == Yaw then (v % 3600) as real / 10.0 else (v * scale) as real
  }

  /** Where an axis stands after a segment that starts at `from`. */
  function EndOn(a: Axis, scale: nat, from: real, vs: seq<int>): real {
    if vs == [] then from else Decoded(a, scale, vs[|vs| - 1])
  }

  function AfterSegment(scale: nat, p: Point, s: Segment): Point {
    Point(EndOn(X, scale, p.x, s.x), EndOn(Y, scale, p.y, s.y),
          EndOn(Z, scale, p.z, s.z), EndOn(Yaw, scale, p.yaw, s.yaw))
  }

  /** Where the trajectory stands after these segments. */
  function After(scale: nat, p: Point, segs: seq<Segment>): Point
    decreases |segs|
  {
    if segs == [] then p else After(scale, AfterSegment(scale, p, segs[0]), segs[1..])
  }

  function Durations(segs: seq<Segment>): (ds: seq<nat>)
    ensures |ds| == |segs| && forall i :: 0 <= i < |segs| ==> ds[i] == segs[i].duration
  {
    seq(|segs|, i requires 0 <= i < |segs| => segs[i].duration)
  }

  function Sum(ds: seq<nat>): nat { if ds == [] then 0 else ds[0] + Sum(ds[1..]) }

  lemma {:induction false} AfterConcat(scale: nat, p: Point, a: seq<Segment>, b: seq<Segment>)
    ensures After(scale, p, a + b) == After(scale, After(scale, p, a), b)
    decreases |a|
  {
    hide AfterSegment;
    if a == [] {
      assert a + b == b;
    } else {
      AfterConcat(scale, AfterSegment(scale, p, a[0]), a[1..], b);
      assert (a + b)[1..] == a[1..] + b;
    }
  }

  lemma {:induction false} SumConcat(a: seq<nat>, b: seq<nat>)
    ensures Sum(a + b) == Sum(a) + Sum(b)
  {
    if a == [] {
      assert a + b == b;
    } else {
      SumConcat(a[1..], b);
      assert (a + b)[1..] == a[1..] + b;
    }
  }

  lemma DurationsConcat(a: seq<Segment>, b: seq<Segment>)
    ensures Durations(a + b) == Durations(a) + Durations(b)
  {
  }
}
