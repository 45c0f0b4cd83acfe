// Return-to-home plans: a table of entries, each encoded relative to the one before it.
module RthPlans {
  import opened Basics
  import opened Parsing
  import Varint

  /** The longest duration of anything in a plan, in seconds. */
  const MAX_DURATION: nat := 16777216
  const HEADER_LENGTH: nat := 3

  datatype Action = Land | GoToKeepingAltitude | GoToWithAltitude

  /** What an entry says about the action; `Same` repeats the one before. */
  datatype What =
    | Same
    | LandHere
    | Keep(point: nat)
    | WithAltitude(point: nat, altitude: int, neck: int, neckDuration: nat)

  /** An entry as it is stored. */
  datatype Stored = Stored(diff: nat, what: What, duration: nat, preDelay: Option<nat>, postDelay: Option<nat>)

  /** A number of seconds as it is handed out: a float need not be a number. */
  datatype Float = NaN | Infinity(negative: bool) | Number(x: real)

  /** An entry as it is handed out. There is no such thing as "the same as before" here. */
  datatype Entry = Entry(
    timeSec: Float, action: Action, duration: Float, targetX: real, targetY: real, altitude: real,
    preDelay: Float, postDelay: Float, preNeck: real, preNeckDuration: Float)

  predicate HasTarget(a: Action) { a != Land }

  predicate HasNeck(a: Action) { a == GoToWithAltitude }

  // ---- the encoding ----

  predicate Uint32(v: nat) { v < UINT32_MODULUS }

  predicate StorableWhat(w: What) {
    match w
    case Same => true
    case LandHere => true
    case Keep(p) => Uint32(p)
    case WithAltitude(p, altitude, neck, d) => Uint32(p) && Int16(altitude) && Int16(neck) && Uint32(d)
  }

  predicate StorableOption(o: Option<nat>) { o.Some? ==> Uint32(o.value) }

  predicate StorableEntry(s: Stored) {
    Uint32(s.diff) && StorableWhat(s.what) && Uint32(s.duration)
    && StorableOption(s.preDelay) && StorableOption(s.postDelay)
  }

  predicate AllStorable(ss: seq<Stored>) { forall i :: 0 <= i < |ss| ==> StorableEntry(ss[i]) }

  function ActionAfter(before: Action, w: What): Action {
    match w
    case Same => before
    case LandHere => Land
    case Keep(_) => GoToKeepingAltitude
    case WithAltitude(_, _, _, _) => GoToWithAltitude
  }

  function Code(w: What): nat {
    match w
    case Same => 0
    case LandHere => 1
    case Keep(_) => 2
    case WithAltitude(_, _, _, _) => 3
  }

  function Flags(s: Stored): Byte {
    16 * Code(s.what) + (if s.preDelay.Some? then 2 else 0) + (if s.postDelay.Some? then 1 else 0)
  }

  function EncodeWhat(w: What): seq<Byte>
    requires StorableWhat(w)
  {
    match w
    case Same => []
    case LandHere => []
    case Keep(p) => Varint.Encode(p)
    case WithAltitude(p, altitude, neck, d) =>
      Varint.Encode(p) + (Le16(Unsigned(altitude)) + (Le16(Unsigned(neck)) + Varint.Encode(d)))
  }

  function EncodeOption(o: Option<nat>): seq<Byte> { if o.Some? then Varint.Encode(o.value) else [] }

  /** The duration is there whenever the action has a target, even an inherited one. */
  function EncodeDuration(a: Action, d: nat): seq<Byte> { if HasTarget(a) then Varint.Encode(d) else [] }

  function EncodeTail(a: Action, s: Stored): seq<Byte> {
    EncodeDuration(a, s.duration) + (EncodeOption(s.preDelay) + EncodeOption(s.postDelay))
  }

  function EncodeEntry(before: Action, s: Stored): seq<Byte>
    requires StorableEntry(s)
  {
    [Flags(s)] + (Varint.Encode(s.diff) + (EncodeWhat(s.what) + EncodeTail(ActionAfter(before, s.what), s)))
  }

  function EncodeEntries(before: Action, ss: seq<Stored>): seq<Byte>
    requires AllStorable(ss)
    decreases |ss|
  {
    if ss == [] then []
    else EncodeEntry(before, ss[0]) + EncodeEntries(ActionAfter(before, ss[0].what), ss[1..])
  }

  // ---- the walk through the table ----

  /** What is carried from entry to entry, and the own values of the latest one. */
  datatype Progress = Progress(
    time: nat, action: Action, point: nat, altitude: real, neck: real, neckDuration: nat,
    timeSec: real, duration: nat, preDelay: nat, postDelay: nat)

  function Initial(query: real): Progress { Progress(0, Land, 0, 0.0, 0.0, 0, query, 0, 0, 0) }

  function ValueOf(o: Option<nat>): nat { if o.Some? then o.value else 0 }

  /** An explicit action replaces the one before, with its parameters. */
  function Acted(p: Progress, scale: nat, w: What): Progress {
    match w
    case Same => p
    case LandHere => p.(action := Land, point := 0, altitude := 0.0, neck := 0.0, neckDuration := 0)
    case Keep(point) =>
      p.(action := GoToKeepingAltitude, point := point, altitude := 0.0, neck := 0.0, neckDuration := 0)
    case WithAltitude(point, altitude, neck, neckDuration) =>
      p.(action := GoToWithAltitude, point := point, altitude := (altitude * scale) as real,
         neck := (neck * scale) as real, neckDuration := neckDuration)
  }

  /** The progress after an entry. */
  function Next(p: Progress, scale: nat, s: Stored): Progress {
    var q, t := Acted(p, scale, s.what), p.time + s.diff;
    q.(time := t, timeSec := t as real, duration := if HasTarget(q.action) then s.duration else 0,
       preDelay := ValueOf(s.preDelay), postDelay := ValueOf(s.postDelay))
  }

  /** The entry cannot be used: its time or one of its durations is too large. */
  predicate Overflows(p: Progress, s: Stored) {
    p.time + s.diff >= UINT32_MODULUS
    || (s.what.WithAltitude? && s.what.neckDuration > MAX_DURATION)
    || (HasTarget(ActionAfter(p.action, s.what)) && s.duration > MAX_DURATION)
    || ValueOf(s.preDelay) > MAX_DURATION || ValueOf(s.postDelay) > MAX_DURATION
  }

  datatype Outcome = Refused | Chosen(p: Progress) | Unknown

  /** Reads at most `count` entries and stops at the first whose time is not before the query;
      Unknown when the known entries run out first. */
  function Walk(p: Progress, scale: nat, ss: seq<Stored>, count: nat, query: real): Outcome
    decreases |ss|
  {
    if count == 0 then Chosen(p)
    else if ss == [] then Unknown
    else if Overflows(p, ss[0]) then Refused
    else
      var next := Next(p, scale, ss[0]);
      if next.time as real >= query then Chosen(next) else Walk(next, scale, ss[1..], count - 1, query)
  }

  // ---- what the walk finds ----

  /** The time of entry k. */
  function TimeOf(ss: seq<Stored>, k: nat): nat
    requires k < |ss|
  {
    (if k == 0 then 0 else TimeOf(ss, k - 1)) + ss[k].diff
  }

  /** The action in force at entry k: that of the latest explicit entry, or to land. */
  function InForce(ss: seq<Stored>, k: nat): What
    requires k < |ss|
    ensures !InForce(ss, k).Same?
  {
    if !ss[k].what.Same? then ss[k].what else if k == 0 then LandHere else InForce(ss, k - 1)
  }

  /** Entry k can be used. */
  predicate Usable(ss: seq<Stored>, k: nat)
    requires k < |ss|
  {
    var w := InForce(ss, k);
    TimeOf(ss, k) < UINT32_MODULUS
    && (ss[k].what.WithAltitude? ==> ss[k].what.neckDuration <= MAX_DURATION)
    && (!w.LandHere? ==> ss[k].duration <= MAX_DURATION)
    && ValueOf(ss[k].preDelay) <= MAX_DURATION && ValueOf(ss[k].postDelay) <= MAX_DURATION
  }

  /** The walk gets to entry k: none before it is late enough, and all can be used. */
  ghost predicate Gets(ss: seq<Stored>, k: nat, query: real) {
    k <= |ss| && forall i :: 0 <= i < k ==> Usable(ss, i) && TimeOf(ss, i) as real < query
  }

  /** The entry that stands for number k: the action from the latest explicit entry, everything
      else its own. */
  function Resolved(ss: seq<Stored>, scale: nat, k: nat): Progress
    requires k < |ss|
  {
    var w, s, t := InForce(ss, k), ss[k], TimeOf(ss, k);
    var pre, post := ValueOf(s.preDelay), ValueOf(s.postDelay);
    match w
    case LandHere => Progress(t, Land, 0, 0.0, 0.0, 0, t as real, 0, pre, post)
    case Keep(point) => Progress(t, GoToKeepingAltitude, point, 0.0, 0.0, 0, t as real, s.duration, pre, post)
    case WithAltitude(point, altitude, neck, neckDuration) =>
      Progress(t, GoToWithAltitude, point, (altitude * scale) as real, (neck * scale) as real, neckDuration,
               t as real, s.duration, pre, post)
    case Same => Initial(0.0)
  }

  /** Where the walk stands before entry k. */
  function Standing(ss: seq<Stored>, scale: nat, k: nat, query: real): Progress
    requires k <= |ss|
  {
    if k == 0 then Initial(query) else Resolved(ss, scale, k - 1)
  }

  lemma NextResolves(ss: seq<Stored>, scale: nat, k: nat, query: real)
    requires k < |ss|
    ensures Next(Standing(ss, scale, k, query), scale, ss[k]) == Resolved(ss, scale, k)
    ensures Overflows(Standing(ss, scale, k, query), ss[k]) <==> !Usable(ss, k)
  {
    if k > 0 { assert !InForce(ss, k - 1).Same?; }
  }

  /** The walk from entry k on, for every query and every table. */
  lemma {:induction false} WalkFrom(ss: seq<Stored>, scale: nat, count: nat, query: real, k: nat)
    requires k <= |ss| && k <= count && Gets(ss, k, query)
    ensures Walk(Standing(ss, scale, k, query), scale, ss[k..], count - k, query)
            == Walk(Initial(query), scale, ss, count, query)
    decreases k
  {
    if k == 0 {
      assert ss[0..] == ss;
    } else {
      WalkFrom(ss, scale, count, query, k - 1);
      NextResolves(ss, scale, k - 1, query);
      assert ss[k - 1..][0] == ss[k - 1] && ss[k - 1..][1..] == ss[k..];
    }
  }

  /** The first entry that is late enough is chosen, or else the last one; its action is that of
      the latest explicit entry. An unusable entry matters only when the walk gets there, so
      nothing that stands behind the chosen entry can change the answer. */
  lemma WalkFinds(ss: seq<Stored>, scale: nat, count: nat, query: real, k: nat)
    requires |ss| <= count && k < |ss| && Gets(ss, k, query)
    ensures !Usable(ss, k) ==> Walk(Initial(query), scale, ss, count, query) == Refused
    ensures Usable(ss, k) && (TimeOf(ss, k) as real >= query || k == count - 1) ==>
              Walk(Initial(query), scale, ss, count, query) == Chosen(Resolved(ss, scale, k))
  {
    hide Next, Overflows, Usable, Resolved;
    WalkFrom(ss, scale, count, query, k);
    NextResolves(ss, scale, k, query);
    TimeResolved(ss, scale, k);
    var rest := ss[k..];
    assert rest[0] == ss[k];
  }

  lemma TimeResolved(ss: seq<Stored>, scale: nat, k: nat)
    requires k < |ss|
    ensures Resolved(ss, scale, k).time == TimeOf(ss, k)
  {
  }

  /** Every walk ends in one of these ways. */
  lemma WalkCases(ss: seq<Stored>, scale: nat, count: nat, query: real)
    requires |ss| == count > 0
    ensures exists k: nat :: k < |ss| && StopsAt(ss, count, k, query)
  {
    var k := Stop(ss, query, 0);
    assert StopsAt(ss, count, k, query);
  }

  ghost predicate StopsAt(ss: seq<Stored>, count: nat, k: nat, query: real)
    requires k < |ss|
  {
    Gets(ss, k, query) && (!Usable(ss, k) || TimeOf(ss, k) as real >= query || k == count - 1)
  }

  lemma {:induction false} Stop(ss: seq<Stored>, query: real, from: nat) returns (k: nat)
    requires from < |ss| && Gets(ss, from, query)
    ensures k < |ss| && StopsAt(ss, |ss|, k, query)
    decreases |ss| - from
  {
    hide Usable;
    if !Usable(ss, from) || TimeOf(ss, from) as real >= query || from == |ss| - 1 {
      k := from;
    } else {
      k := Stop(ss, query, from + 1);
    }
  }

  // ---- reading ----

  /** What reading at an offset comes to: a value and where it ends; an error; or Outside, where
      the original reads past the end of the block. */
  datatype Reading<T> = Got(value: T, next: nat) | Failed(status: Status) | Outside

  function ReadNumber(bytes: seq<Byte>, at: nat): Reading<nat> {
    match Varint.Parse(bytes, at)
    case Number(v, next) => Got(v, next)
    case TooLarge(_) => Failed(EOverflow)
    case Truncated(_) => Failed(EParse)
  }

  function ReadCoordinate(bytes: seq<Byte>, at: nat): Reading<int> {
    if at + 2 <= |bytes| then Got(Signed(Word(bytes, at)), at + 2) else Outside
  }

  /** A duration, refused above the limit. */
  function ReadDuration(bytes: seq<Byte>, at: nat, limit: nat): Reading<nat> {
    match ReadNumber(bytes, at)
    case Got(v, next) => if v > limit then Failed(EOverflow) else Got(v, next)
    case Failed(e) => Failed(e)
    case Outside => Outside
  }

  function ReadOption(bytes: seq<Byte>, at: nat, present: bool, limit: nat): Reading<Option<nat>> {
    if !present then Got(None, at)
    else
      match ReadDuration(bytes, at, limit)
      case Got(v, next) => Got(Some(v), next)
      case Failed(e) => Failed(e)
      case Outside => Outside
  }

  /** The altitude and the neck of an action that has them. */
  function ReadParameters(bytes: seq<Byte>, at: nat, point: nat, limit: nat): Reading<What> {
    match ReadCoordinate(bytes, at)
    case Failed(e) => Failed(e)
    case Outside => Outside
    case Got(altitude, at1) =>
      match ReadCoordinate(bytes, at1)
      case Failed(e) => Failed(e)
      case Outside => Outside
      case Got(neck, at2) =>
        match ReadDuration(bytes, at2, limit)
        case Failed(e) => Failed(e)
        case Outside => Outside
        case Got(d, next) => Got(WithAltitude(point, altitude, neck, d), next)
  }

  function ReadWhat(bytes: seq<Byte>, at: nat, code: nat, limit: nat): Reading<What> {
    if code == 0 then Got(Same, at)
    else if code == 1 then Got(LandHere, at)
    else
      match ReadNumber(bytes, at)
      case Failed(e) => Failed(e)
      case Outside => Outside
      case Got(p, next) => if code == 2 then Got(Keep(p), next) else ReadParameters(bytes, next, p, limit)
  }

  /** The duration, which is there whenever the action has a target, and the delays. */
  function ReadTail(bytes: seq<Byte>, at: nat, a: Action, flags: Byte, diff: nat, w: What, limit: nat)
    : Reading<Stored>
  {
    match ReadOption(bytes, at, HasTarget(a), limit)
    case Failed(e) => Failed(e)
    case Outside => Outside
    case Got(d, at1) =>
      match ReadOption(bytes, at1, flags / 2 % 2 == 1, limit)
      case Failed(e) => Failed(e)
      case Outside => Outside
      case Got(pre, at2) =>
        match ReadOption(bytes, at2, flags % 2 == 1, limit)
        case Failed(e) => Failed(e)
        case Outside => Outside
        case Got(post, next) => Got(Stored(diff, w, ValueOf(d), pre, post), next)
  }

  /** An entry after one at `time`, in the order in which it is read and checked. */
  function ReadEntry(bytes: seq<Byte>, at: nat, before: Action, time: nat, limit: nat): Reading<Stored> {
    if at >= |bytes| then Outside
    else
      match ReadNumber(bytes, at + 1)
      case Failed(e) => Failed(e)
      case Outside => Outside
      case Got(diff, at1) =>
        if time + diff >= UINT32_MODULUS then Failed(EOverflow)
        else
          match ReadWhat(bytes, at1, bytes[at] / 16 % 4, limit)
          case Failed(e) => Failed(e)
          case Outside => Outside
          case Got(w, at2) => ReadTail(bytes, at2, ActionAfter(before, w), bytes[at], diff, w, limit)
  }

  // ---- evaluation of a block, whatever its bytes are ----

  datatype Search = Found(p: Progress) | Error(status: Status) | PastEnd

  /** Reads at most `count` entries and stops at the first whose time is not before the query. */
  function SearchFrom(p: Progress, scale: nat, bytes: seq<Byte>, at: nat, count: nat, query: real): Search
    decreases count
  {
    if count == 0 then Found(p)
    else
      match ReadEntry(bytes, at, p.action, p.time, MAX_DURATION)
      case Failed(e) => Error(e)
      case Outside => PastEnd
      case Got(s, next) =>
        var q := Next(p, scale, s);
        if q.time as real >= query then Found(q) else SearchFrom(q, scale, bytes, next, count - 1, query)
  }

  function EntriesOffset(numPoints: nat): nat { HEADER_LENGTH + 4 * numPoints + 2 }

  function NumPoints(bytes: seq<Byte>): nat
    requires |bytes| >= HEADER_LENGTH
  {
    Word(bytes, 1)
  }

  /** A block that is too short for the number of entries has none. */
  function Count(bytes: seq<Byte>): nat
    requires |bytes| >= HEADER_LENGTH
  {
    var at := EntriesOffset(NumPoints(bytes)) - 2;
    if at + 2 <= |bytes| then Word(bytes, at) else 0
  }

  function SearchOf(bytes: seq<Byte>, query: real): Search
    requires |bytes| >= HEADER_LENGTH
  {
    if query < 0.0 then Found(Initial(query))
    else SearchFrom(Initial(query), bytes[0] % 128, bytes, EntriesOffset(NumPoints(bytes)), Count(bytes), query)
  }

  /** A point of the block. */
  function PointOf(bytes: seq<Byte>, index: nat): Reading<(real, real)>
    requires |bytes| >= HEADER_LENGTH
  {
    var at, scale := HEADER_LENGTH + 4 * index, bytes[0] % 128;
    if index >= NumPoints(bytes) then Failed(EInval)
    else if at + 4 > |bytes| then Outside
    else Got(((Signed(Word(bytes, at)) * scale) as real, (Signed(Word(bytes, at + 2)) * scale) as real), at + 4)
  }

  function Handed(p: Progress, x: real, y: real): Entry {
    Entry(Number(p.timeSec), p.action, Number(p.duration as real), x, y, p.altitude, Number(p.preDelay as real),
          Number(p.postDelay as real), p.neck, Number(p.neckDuration as real))
  }

  datatype Evaluation = Answer(entry: Entry) | Refusal(status: Status) | Undefined

  /** What evaluating a block at a time comes to; undefined where the original reads past its end. */
  function Evaluate(bytes: seq<Byte>, query: real): Evaluation
    requires |bytes| >= HEADER_LENGTH
  {
    match SearchOf(bytes, query)
    case Error(e) => Refusal(e)
    case PastEnd => Undefined
    case Found(p) =>
      if !HasTarget(p.action) then Answer(Handed(p, 0.0, 0.0))
      else
        match PointOf(bytes, p.point)
        case Got((x, y), _) => Answer(Handed(p, x, y))
        case Failed(e) => Refusal(e)
        case Outside => Undefined
  }

  // ---- blocks that hold a plan ----

  /** A plan: its scale, its points as consecutive coordinates, the number of entries that it
      announces, and the entries that are known to be well formed. */
  datatype Contents = Contents(scale: nat, points: seq<int>, count: nat, entries: seq<Stored>)

  /** The bytes read as these entries, however large their times and durations are. */
  ghost predicate ReadsAs(bytes: seq<Byte>, at: nat, before: Action, ss: seq<Stored>)
    decreases |ss|
  {
    ss == []
    || (var r := ReadEntry(bytes, at, before, 0, UINT32_MODULUS);
        r.Got? && r.value == ss[0] && ReadsAs(bytes, r.next, ActionAfter(before, ss[0].what), ss[1..]))
  }

  /** The bytes read as the plan; behind the known entries they are arbitrary. */
  ghost predicate HoldsPlan(bytes: seq<Byte>, c: Contents) {
    |bytes| >= HEADER_LENGTH && c.scale == bytes[0] % 128 && |c.points| == 2 * NumPoints(bytes)
    && c.count == Count(bytes) && |c.entries| <= c.count
    && if EntriesOffset(NumPoints(bytes)) <= |bytes| then
         c.points == ReadWords(bytes, HEADER_LENGTH, |c.points|)
         && ReadsAs(bytes, EntriesOffset(NumPoints(bytes)), Land, c.entries)
       else c.entries == []
  }

  function WalkOf(c: Contents, query: real): Outcome {
    if query < 0.0 then Chosen(Initial(query)) else Walk(Initial(query), c.scale, c.entries, c.count, query)
  }

  function EntryOf(c: Contents, p: Progress): Entry
    requires HasTarget(p.action) ==> p.point < |c.points| / 2
  {
    if HasTarget(p.action) then
      Handed(p, (c.points[2 * p.point] * c.scale) as real, (c.points[2 * p.point + 1] * c.scale) as real)
    else Handed(p, 0.0, 0.0)
  }

  lemma ReadWhatLimited(bytes: seq<Byte>, at: nat, code: nat)
    ensures var r := ReadWhat(bytes, at, code, UINT32_MODULUS);
            r.Got? ==>
              ReadWhat(bytes, at, code, MAX_DURATION)
              == if r.value.WithAltitude? && r.value.neckDuration > MAX_DURATION then Failed(EOverflow) else r
  {
    hide Varint.Parse, Word;
  }

  lemma ReadOptionLimited(bytes: seq<Byte>, at: nat, present: bool)
    ensures var r := ReadOption(bytes, at, present, UINT32_MODULUS);
            r.Got? ==>
              ReadOption(bytes, at, present, MAX_DURATION)
              == if ValueOf(r.value) > MAX_DURATION then Failed(EOverflow) else r
  {
    hide Varint.Parse;
  }

  lemma ReadTailLimited(bytes: seq<Byte>, at: nat, a: Action, flags: Byte, diff: nat, w: What)
    ensures var r := ReadTail(bytes, at, a, flags, diff, w, UINT32_MODULUS);
            r.Got? ==>
              ReadTail(bytes, at, a, flags, diff, w, MAX_DURATION)
              == (if r.value.duration > MAX_DURATION || ValueOf(r.value.preDelay) > MAX_DURATION
                     || ValueOf(r.value.postDelay) > MAX_DURATION then Failed(EOverflow) else r)
              && r.value.diff == diff && r.value.what == w
              && (r.value.duration > 0 ==> HasTarget(a))
  {
    hide ReadOption;
    var d := ReadOption(bytes, at, HasTarget(a), UINT32_MODULUS);
    ReadOptionLimited(bytes, at, HasTarget(a));
    if d.Got? {
      ReadAbsent(bytes, at, HasTarget(a));
      var pre := ReadOption(bytes, d.next, flags / 2 % 2 == 1, UINT32_MODULUS);
      ReadOptionLimited(bytes, d.next, flags / 2 % 2 == 1);
      if pre.Got? { ReadOptionLimited(bytes, pre.next, flags % 2 == 1); }
    }
  }

  lemma ReadAbsent(bytes: seq<Byte>, at: nat, present: bool)
    ensures !present ==> ReadOption(bytes, at, present, UINT32_MODULUS) == Got(None, at)
  {
  }

  /** With the limits of the evaluation an entry is read as it is, or it is an overflow: exactly
      if it cannot be used. */
  lemma ReadEntryLimited(bytes: seq<Byte>, at: nat, p: Progress)
    ensures var r := ReadEntry(bytes, at, p.action, 0, UINT32_MODULUS);
            r.Got? ==>
              ReadEntry(bytes, at, p.action, p.time, MAX_DURATION)
              == if Overflows(p, r.value) then Failed(EOverflow) else r
  {
    hide ReadNumber, ReadWhat, ReadTail;
    if at < |bytes| && ReadNumber(bytes, at + 1).Got? {
      var n := ReadNumber(bytes, at + 1);
      ReadWhatLimited(bytes, n.next, bytes[at] / 16 % 4);
      var w := ReadWhat(bytes, n.next, bytes[at] / 16 % 4, UINT32_MODULUS);
      if w.Got? {
        ReadTailLimited(bytes, w.next, ActionAfter(p.action, w.value), bytes[at], n.value, w.value);
      }
    }
  }

  /** Where the entries are well formed the search over the bytes is the walk over them. */
  lemma {:induction false} SearchIsWalk(bytes: seq<Byte>, at: nat, p: Progress, scale: nat, ss: seq<Stored>,
                                        count: nat, query: real)
    requires ReadsAs(bytes, at, p.action, ss) && Walk(p, scale, ss, count, query) != Unknown
    ensures SearchFrom(p, scale, bytes, at, count, query)
            == match Walk(p, scale, ss, count, query)
               case Refused => Error(EOverflow)
               case Chosen(q) => Found(q)
               case Unknown => PastEnd
    decreases |ss|
  {
    hide ReadEntry, Next, Overflows;
    if count > 0 && ss != [] {
      ReadEntryLimited(bytes, at, p);
      if !Overflows(p, ss[0]) {
        NextBounded(p, scale, ss[0]);
        var next := Next(p, scale, ss[0]);
        if (next.time as real) < query {
          SearchIsWalk(bytes, ReadEntry(bytes, at, p.action, 0, UINT32_MODULUS).next, next, scale, ss[1..],
                       count - 1, query);
        }
      }
    }
  }

  /** What evaluating a block that holds a plan comes to. */
  lemma EvaluatePlan(bytes: seq<Byte>, c: Contents, query: real)
    requires HoldsPlan(bytes, c) && WalkOf(c, query) != Unknown
    ensures Evaluate(bytes, query)
            == match WalkOf(c, query)
               case Refused => Refusal(EOverflow)
               case Chosen(p) =>
                 if HasTarget(p.action) && p.point >= |c.points| / 2 then Refusal(EInval) else Answer(EntryOf(c, p))
               case Unknown => Undefined
  {
    hide Walk, SearchFrom, ReadsAs, Word, ReadEntry;
    if query >= 0.0 {
      if EntriesOffset(NumPoints(bytes)) <= |bytes| {
        SearchIsWalk(bytes, EntriesOffset(NumPoints(bytes)), Initial(query), c.scale, c.entries, c.count, query);
      } else {
        NothingKnown(c, bytes, query);
      }
    }
    if WalkOf(c, query).Chosen? {
      var p := WalkOf(c, query).p;
      if HasTarget(p.action) && p.point < |c.points| / 2 { PointHeld(bytes, c, p.point, query); }
    }
  }

  /** The point of an action that has one. */
  function PointIndex(w: What): nat {
    match w
    case Keep(point) => point
    case WithAltitude(point, _, _, _) => point
    case _ => 0
  }

  /** Every field of the answer, from the entries as they are stored: the first entry that is late
      enough, or else the last, gives its own time, duration and delays; the latest explicit action
      up to it gives the action with its point, altitude and neck. */
  lemma AnswerIsStored(bytes: seq<Byte>, c: Contents, query: real, k: nat)
    requires HoldsPlan(bytes, c) && query >= 0.0
    requires k < |c.entries| && Gets(c.entries, k, query) && Usable(c.entries, k)
    requires TimeOf(c.entries, k) as real >= query || k == c.count - 1
    ensures var s, w, r := c.entries[k], InForce(c.entries, k), Evaluate(bytes, query);
            if !w.LandHere? && PointIndex(w) >= |c.points| / 2 then r == Refusal(EInval)
            else
              && r.Answer? && r.entry.timeSec == Number(TimeOf(c.entries, k) as real)
              && r.entry.preDelay == Number(if s.preDelay.Some? then s.preDelay.value as real else 0.0)
              && r.entry.postDelay == Number(if s.postDelay.Some? then s.postDelay.value as real else 0.0)
              && r.entry.duration == Number(if w.LandHere? then 0.0 else s.duration as real)
              && r.entry.action == (match w
                                    case Keep(_) => GoToKeepingAltitude
                                    case WithAltitude(_, _, _, _) => GoToWithAltitude
                                    case _ => Land)
              && r.entry.targetX
                 == (if w.LandHere? then 0 else c.points[2 * PointIndex(w)] * c.scale) as real
              && r.entry.targetY
                 == (if w.LandHere? then 0 else c.points[2 * PointIndex(w) + 1] * c.scale) as real
              && r.entry.altitude == (if w.WithAltitude? then w.altitude * c.scale else 0) as real
              && r.entry.preNeck == (if w.WithAltitude? then w.neck * c.scale else 0) as real
              && r.entry.preNeckDuration == Number(if w.WithAltitude? then w.neckDuration as real else 0.0)
  {
    hide Walk, Usable, Gets, InForce, TimeOf, Evaluate, HoldsPlan;
    KnownEntries(bytes, c);
    WalkFinds(c.entries, c.scale, c.count, query, k);
    EvaluatePlan(bytes, c, query);
  }

  lemma KnownEntries(bytes: seq<Byte>, c: Contents)
    requires HoldsPlan(bytes, c)
    ensures |c.entries| <= c.count && |c.points| % 2 == 0
  {
    hide ReadsAs, Count;
  }

  /** Before time zero the answer is to land at once, whatever the plan. */
  lemma NegativeTimeLands(bytes: seq<Byte>, query: real)
    requires |bytes| >= HEADER_LENGTH && query < 0.0
    ensures var r := Evaluate(bytes, query);
            r.Answer? && r.entry.action == Land && r.entry.timeSec == Number(query)
            && r.entry.duration == r.entry.preDelay == r.entry.postDelay == r.entry.preNeckDuration == Number(0.0)
            && r.entry.targetX == r.entry.targetY == r.entry.altitude == r.entry.preNeck == 0.0
  {
  }

  lemma NothingKnown(c: Contents, bytes: seq<Byte>, query: real)
    requires c.count == 0
    ensures Walk(Initial(query), c.scale, c.entries, c.count, query) == Chosen(Initial(query))
    ensures forall at: nat :: SearchFrom(Initial(query), c.scale, bytes, at, c.count, query) == Found(Initial(query))
  {
  }

  lemma PointHeld(bytes: seq<Byte>, c: Contents, index: nat, query: real)
    requires HoldsPlan(bytes, c) && WalkOf(c, query).Chosen? && HasTarget(WalkOf(c, query).p.action)
    requires index < |c.points| / 2
    ensures PointOf(bytes, index)
            == Got(((c.points[2 * index] * c.scale) as real, (c.points[2 * index + 1] * c.scale) as real),
                   HEADER_LENGTH + 4 * index + 4)
  {
    hide Word, ReadsAs, ReadEntry;
    if EntriesOffset(NumPoints(bytes)) > |bytes| { NothingKnown(c, bytes, query); }
    ReadWordsAt(bytes, HEADER_LENGTH, |c.points|, 2 * index);
    ReadWordsAt(bytes, HEADER_LENGTH, |c.points|, 2 * index + 1);
  }

  // ---- what is encoded is read ----

  /** The duration of an entry whose action has no target is not stored. */
  predicate Plain(before: Action, s: Stored) { HasTarget(ActionAfter(before, s.what)) || s.duration == 0 }

  ghost predicate AllPlain(before: Action, ss: seq<Stored>)
    decreases |ss|
  {
    ss == [] || (Plain(before, ss[0]) && AllPlain(ActionAfter(before, ss[0].what), ss[1..]))
  }

  lemma EncodedNumber(bytes: seq<Byte>, at: nat, v: nat)
    requires Uint32(v) && At(bytes, at, Varint.Encode(v))
    ensures ReadNumber(bytes, at) == Got(v, at + |Varint.Encode(v)|)
  {
    Varint.ParseEncode(bytes, at, v);
  }

  lemma EncodedOption(bytes: seq<Byte>, at: nat, o: Option<nat>)
    requires StorableOption(o) && At(bytes, at, EncodeOption(o))
    ensures ReadOption(bytes, at, o.Some?, UINT32_MODULUS) == Got(o, at + |EncodeOption(o)|)
  {
    hide Varint.Encode, ReadNumber;
    if o.Some? { EncodedNumber(bytes, at, o.value); }
  }

  lemma EncodedWhat(bytes: seq<Byte>, at: nat, w: What)
    requires StorableWhat(w) && At(bytes, at, EncodeWhat(w))
    ensures ReadWhat(bytes, at, Code(w), UINT32_MODULUS) == Got(w, at + |EncodeWhat(w)|)
  {
    hide Varint.Encode, ReadNumber, Le16, Word, At;
    match w
    case Same =>
    case LandHere =>
    case Keep(p) => EncodedNumber(bytes, at, p);
    case WithAltitude(p, altitude, neck, d) =>
      ParametersAt(bytes, at, w);
      EncodedNumber(bytes, at, p);
      EncodedNumber(bytes, at + |Varint.Encode(p)| + 4, d);
  }

  lemma EncodedTail(bytes: seq<Byte>, at: nat, a: Action, flags: Byte, s: Stored)
    requires StorableEntry(s) && (HasTarget(a) || s.duration == 0) && At(bytes, at, EncodeTail(a, s))
    requires (flags / 2 % 2 == 1 <==> s.preDelay.Some?) && (flags % 2 == 1 <==> s.postDelay.Some?)
    ensures ReadTail(bytes, at, a, flags, s.diff, s.what, UINT32_MODULUS) == Got(s, at + |EncodeTail(a, s)|)
  {
    hide Varint.Encode, EncodeOption, ReadOption, At, StorableOption, EncodeTail;
    TailAt(bytes, at, a, s);
    EncodedDuration(bytes, at, a, s);
    var d := |EncodeDuration(a, s.duration)|;
    EncodedOption(bytes, at + d, s.preDelay);
    EncodedOption(bytes, at + d + |EncodeOption(s.preDelay)|, s.postDelay);
  }

  lemma EncodedDuration(bytes: seq<Byte>, at: nat, a: Action, s: Stored)
    requires StorableEntry(s) && (HasTarget(a) ==> At(bytes, at, Varint.Encode(s.duration)))
    ensures ReadOption(bytes, at, HasTarget(a), UINT32_MODULUS)
            == Got(if HasTarget(a) then Some(s.duration) else None, at + |EncodeDuration(a, s.duration)|)
  {
    hide Varint.Encode, ReadNumber;
    if HasTarget(a) { EncodedNumber(bytes, at, s.duration); }
  }

  /** Round trip of an entry: it is read as it was encoded, after any other and wherever it stands. */
  lemma EncodedEntry(bytes: seq<Byte>, at: nat, before: Action, s: Stored)
    requires StorableEntry(s) && Plain(before, s) && At(bytes, at, EncodeEntry(before, s))
    ensures ReadEntry(bytes, at, before, 0, UINT32_MODULUS) == Got(s, at + |EncodeEntry(before, s)|)
  {
    hide Varint.Encode, EncodeWhat, EncodeTail, EncodeEntry, Flags, ReadNumber, ReadWhat, ReadTail, At;
    EntryAt(bytes, at, before, s);
    FlagsRead(s);
    EncodedNumber(bytes, at + 1, s.diff);
    EncodedWhat(bytes, at + 1 + |Varint.Encode(s.diff)|, s.what);
    EncodedTail(bytes, at + 1 + |Varint.Encode(s.diff)| + |EncodeWhat(s.what)|, ActionAfter(before, s.what),
                Flags(s), s);
  }

  lemma {:induction false} EncodedEntries(bytes: seq<Byte>, at: nat, before: Action, ss: seq<Stored>)
    requires AllStorable(ss) && AllPlain(before, ss) && At(bytes, at, EncodeEntries(before, ss))
    ensures ReadsAs(bytes, at, before, ss)
    decreases |ss|
  {
    hide EncodeEntry, StorableEntry, Plain, ReadEntry, At, EncodeEntries;
    if ss != [] {
      EntriesSplit(bytes, at, before, ss);
      EncodedEntry(bytes, at, before, ss[0]);
      EncodedEntries(bytes, at + |EncodeEntry(before, ss[0])|, ActionAfter(before, ss[0].what), ss[1..]);
    }
  }

  predicate Storable(c: Contents) {
    c.scale < 128 && AllInt16(c.points) && |c.points| % 2 == 0 && |c.points| / 2 < 0x10000
    && AllStorable(c.entries) && |c.entries| <= c.count < 0x10000
  }

  /** A whole block; its first bit is not used. */
  function EncodePlan(c: Contents): seq<Byte>
    requires Storable(c)
  {
    [c.scale] + (Le16(|c.points| / 2) + (Words(c.points) + (Le16(c.count) + EncodeEntries(Land, c.entries))))
  }

  /** Round trip: an encoded plan is held by its bytes, whatever stands behind them. */
  lemma EncodedPlan(bytes: seq<Byte>, c: Contents)
    requires Storable(c) && AllPlain(Land, c.entries) && At(bytes, 0, EncodePlan(c))
    ensures HoldsPlan(bytes, c)
  {
    hide Words, Le16, Word, EncodeEntries, ReadsAs, AllStorable, At;
    var n, es := |c.points| / 2, EncodeEntries(Land, c.entries);
    AtSplit(bytes, 0, [c.scale], Le16(n) + (Words(c.points) + (Le16(c.count) + es)));
    AtSplit(bytes, 1, Le16(n), Words(c.points) + (Le16(c.count) + es));
    AtSplit(bytes, HEADER_LENGTH, Words(c.points), Le16(c.count) + es);
    AtSplit(bytes, HEADER_LENGTH + 4 * n, Le16(c.count), es);
    AtBound(bytes, 0, [c.scale]);
    AtBound(bytes, EntriesOffset(n), es);
    ReadWritten(bytes, 1, n);
    ReadWritten(bytes, HEADER_LENGTH + 4 * n, c.count);
    ReadWrittenWords(bytes, HEADER_LENGTH, c.points);
    EncodedEntries(bytes, EntriesOffset(n), Land, c.entries);
  }

  lemma FlagsRead(s: Stored)
    ensures var f := Flags(s);
            f / 16 % 4 == Code(s.what) && (f / 2 % 2 == 1 <==> s.preDelay.Some?)
            && (f % 2 == 1 <==> s.postDelay.Some?)
  {
  }

  lemma ParametersAt(bytes: seq<Byte>, at: nat, w: What)
    requires StorableWhat(w) && w.WithAltitude? && At(bytes, at, EncodeWhat(w))
    ensures var n := |Varint.Encode(w.point)|;
            At(bytes, at, Varint.Encode(w.point)) && at + n + 4 <= |bytes|
            && Signed(Word(bytes, at + n)) == w.altitude && Signed(Word(bytes, at + n + 2)) == w.neck
            && At(bytes, at + n + 4, Varint.Encode(w.neckDuration))
  {
    hide Varint.Encode, Le16, Unsigned, Word, At;
    var p, d := Varint.Encode(w.point), Varint.Encode(w.neckDuration);
    var a, k := Le16(Unsigned(w.altitude)), Le16(Unsigned(w.neck));
    AtSplit(bytes, at, p, a + (k + d));
    AtSplit(bytes, at + |p|, a, k + d);
    AtSplit(bytes, at + |p| + 2, k, d);
    ReadWritten(bytes, at + |p|, Unsigned(w.altitude));
    ReadWritten(bytes, at + |p| + 2, Unsigned(w.neck));
    AtBound(bytes, at + |p| + 2, k);
    SignedUnsigned(w.altitude);
    SignedUnsigned(w.neck);
  }

  lemma SignedUnsigned(v: int)
    requires Int16(v)
    ensures Signed(Unsigned(v)) == v
  {
  }

  lemma EntryAt(bytes: seq<Byte>, at: nat, before: Action, s: Stored)
    requires StorableEntry(s) && At(bytes, at, EncodeEntry(before, s))
    ensures var a := ActionAfter(before, s.what);
            var diff, w := |Varint.Encode(s.diff)|, |EncodeWhat(s.what)|;
            at < |bytes| && bytes[at] == Flags(s)
            && At(bytes, at + 1, Varint.Encode(s.diff)) && At(bytes, at + 1 + diff, EncodeWhat(s.what))
            && At(bytes, at + 1 + diff + w, EncodeTail(a, s))
            && |EncodeEntry(before, s)| == 1 + diff + w + |EncodeTail(a, s)|
  {
    hide Varint.Encode, EncodeWhat, EncodeTail, Flags, At;
    var tail := EncodeTail(ActionAfter(before, s.what), s);
    var diff, w := Varint.Encode(s.diff), EncodeWhat(s.what);
    AtSplit(bytes, at, [Flags(s)], diff + (w + tail));
    AtSplit(bytes, at + 1, diff, w + tail);
    AtSplit(bytes, at + 1 + |diff|, w, tail);
    AtBound(bytes, at, [Flags(s)]);
  }

  lemma TailAt(bytes: seq<Byte>, at: nat, a: Action, s: Stored)
    requires StorableEntry(s) && At(bytes, at, EncodeTail(a, s))
    ensures var d, pre := |EncodeDuration(a, s.duration)|, |EncodeOption(s.preDelay)|;
            (HasTarget(a) ==> d == |Varint.Encode(s.duration)| && At(bytes, at, Varint.Encode(s.duration)))
            && (!HasTarget(a) ==> d == 0)
            && At(bytes, at + d, EncodeOption(s.preDelay)) && At(bytes, at + d + pre, EncodeOption(s.postDelay))
            && |EncodeTail(a, s)| == d + pre + |EncodeOption(s.postDelay)|
    ensures StorableOption(s.preDelay) && StorableOption(s.postDelay) && Uint32(s.duration)
  {
    hide Varint.Encode, EncodeOption, At;
    var d, pre, post := EncodeDuration(a, s.duration), EncodeOption(s.preDelay), EncodeOption(s.postDelay);
    AtSplit(bytes, at, d, pre + post);
    AtSplit(bytes, at + |d|, pre, post);
  }

  lemma EntriesSplit(bytes: seq<Byte>, at: nat, before: Action, ss: seq<Stored>)
    requires AllStorable(ss) && ss != [] && At(bytes, at, EncodeEntries(before, ss))
    ensures StorableEntry(ss[0]) && AllStorable(ss[1..]) && At(bytes, at, EncodeEntry(before, ss[0]))
    ensures At(bytes, at + |EncodeEntry(before, ss[0])|,
               EncodeEntries(ActionAfter(before, ss[0].what), ss[1..]))
  {
    hide EncodeEntry, StorableEntry;
    AtSplit(bytes, at, EncodeEntry(before, ss[0]), EncodeEntries(ActionAfter(before, ss[0].what), ss[1..]));
  }

  lemma NextBounded(p: Progress, scale: nat, s: Stored)
    ensures Next(p, scale, s).time == p.time + s.diff
    ensures Next(p, scale, s).action == ActionAfter(p.action, s.what)
  {
  }

  // ---- plans in memory ----

  /** The outcome of a parsing method is that of the reading function. */
  predicate Agrees<T(==)>(r: Reading<T>, status: Status, value: T, next: nat) {
    match r
    case Got(v, n) => status == Success && value == v && next == n
    case Failed(e) => status == e != Success
    case Outside => false
  }

  class Plan {
    const buffer: array<Byte>
    const scale: nat
    const headerLength: nat
    const numPoints: nat

    constructor InitFromBuffer(buf: array<Byte>)
      requires buf.Length >= HEADER_LENGTH
      ensures Valid() && buffer == buf
    {
      var points, offset := ParseUint16(buf, 1);
      buffer, scale, numPoints, headerLength := buf, buf[0] % 128, points, offset;
    }

    /** The fields are those of the header. */
    ghost predicate Valid()
      reads buffer
    {
      buffer.Length >= HEADER_LENGTH && headerLength == HEADER_LENGTH
      && scale == buffer[..][0] % 128 && numPoints == NumPoints(buffer[..])
    }

    method GetNumEntries() returns (n: nat)
      requires Valid()
      ensures n == Count(buffer[..])
    {
      var offset := headerLength + numPoints * 4;
      if offset + 2 <= buffer.Length {
        n, offset := ParseUint16(buffer, offset);
      } else {
        n := 0;
      }
    }

    method ParseCoordinate(offset: nat) returns (value: real, next: nat)
      requires offset + 2 <= buffer.Length
      ensures ReadCoordinate(buffer[..], offset) == Got(Signed(Word(buffer[..], offset)), next)
      ensures value == (Signed(Word(buffer[..], offset)) * scale) as real
    {
      var v;
      v, next := ParseInt16(buffer, offset);
      value := (v * scale) as real;
    }

    /** A point of the plan; the index comes from an entry and may be too large. */
    method GetPoint(index: nat) returns (status: Status, x: real, y: real)
      requires Valid() && PointOf(buffer[..], index) != Outside
      ensures match PointOf(buffer[..], index)
              case Got((px, py), _) => status == Success && x == px && y == py
              case Failed(e) => status == e != Success
    {
      x, y := 0.0, 0.0;
      if index >= numPoints { return EInval, x, y; }
      var offset := headerLength + index * 4;
      x, offset := ParseCoordinate(offset);
      y, offset := ParseCoordinate(offset);
      status := Success;
    }

    method ParseNumber(offset: nat) returns (status: Status, value: nat, next: nat)
      ensures Agrees(ReadNumber(buffer[..], offset), status, value, next)
      ensures Uint32(value)
    {
      var parsed := Varint.ParseVaruint32(buffer, offset);
      match parsed
      case Number(v, n) => return Success, v, n;
      case TooLarge(n) => return EOverflow, 0, n;
      case Truncated(n) => return EParse, 0, n;
    }

    method ParseDuration(offset: nat) returns (status: Status, duration: nat, next: nat)
      ensures Agrees(ReadDuration(buffer[..], offset, MAX_DURATION), status, duration, next)
      ensures match Varint.Parse(buffer[..], offset)
              case Number(v, n) => if v <= 16777216 then status == Success && duration == v && next == n
                                   else status == EOverflow
              case TooLarge(_) => status == EOverflow
              case Truncated(_) => status == EParse
    {
      hide Varint.Parse;
      status, duration, next := ParseNumber(offset);
      if status == Success && duration > MAX_DURATION { status := EOverflow; }
    }

    method ParseOption(present: bool, offset: nat)
      returns (status: Status, duration: nat, next: nat, ghost o: Option<nat>)
      ensures Agrees(ReadOption(buffer[..], offset, present, MAX_DURATION), status, o, next)
      ensures status == Success ==> duration == ValueOf(o)
    {
      hide ReadDuration;
      if present {
        status, duration, next := ParseDuration(offset);
        o := Some(duration);
      } else {
        status, duration, next, o := Success, 0, offset, None;
      }
    }

    /** The action of an entry: `code` is its number in the flags, and an explicit one is followed
        by its point, its altitude, and its neck with the duration of that. */
    method ParseAction(p: Progress, code: nat, offset: nat)
      returns (status: Status, r: Progress, next: nat, ghost w: What)
      requires code < 4 && ReadWhat(buffer[..], offset, code, MAX_DURATION) != Outside
      ensures Agrees(ReadWhat(buffer[..], offset, code, MAX_DURATION), status, w, next)
      ensures status == Success ==> r == Acted(p, scale, w)
    {
      hide ReadNumber, ReadDuration, Word;
      status, r, next, w := Success, p, offset, Same;
      if code == 0 { return; }
      r := r.(action := if code == 1 then Land else if code == 2 then GoToKeepingAltitude else GoToWithAltitude);
      w := LandHere;
      if HasTarget(r.action) {
        var point;
        status, point, next := ParseNumber(next);
        if status != Success { return; }
        r, w := r.(point := point), Keep(point);
      } else {
        r := r.(point := 0);
      }
      if r.action == GoToWithAltitude {
        w := WithAltitude(r.point, Signed(Word(buffer[..], next)), 0, 0);
        var altitude;
        altitude, next := ParseCoordinate(next);
        r := r.(altitude := altitude);
      } else {
        r := r.(altitude := 0.0);
      }
      if HasNeck(r.action) {
        w := w.(neck := Signed(Word(buffer[..], next)));
        var neck, duration;
        neck, next := ParseCoordinate(next);
        status, duration, next := ParseDuration(next);
        if status != Success { return; }
        r, w := r.(neck := neck, neckDuration := duration), w.(neckDuration := duration);
      } else {
        r := r.(neck := 0.0, neckDuration := 0);
      }
    }

    /** Reads one entry of the table. */
    method ParseEntry(p: Progress, offset: nat) returns (status: Status, r: Progress, next: nat, ghost s: Stored)
      requires ReadEntry(buffer[..], offset, p.action, p.time, MAX_DURATION) != Outside && Uint32(p.time)
      ensures Agrees(ReadEntry(buffer[..], offset, p.action, p.time, MAX_DURATION), status, s, next)
      ensures status == Success ==> r == Next(p, scale, s) && Uint32(r.time)
    {
      hide ReadNumber, ReadWhat, ReadTail;
      r, s := p, Stored(0, Same, 0, None, None);
      var flags := buffer[offset];
      var diff;
      status, diff, next := ParseNumber(offset + 1);
      if status != Success { return; }
      if (diff + r.time) % UINT32_MODULUS < r.time {  // the sum wrapped around
        return EOverflow, r, next, s;
      }
      r := r.(time := r.time + diff, timeSec := (r.time + diff) as real);
      ghost var w;
      status, r, next, w := ParseAction(r, flags / 16 % 4, next);
      if status != Success { return; }
      status, r, next, s := ParseTail(r, flags, next, diff, w);
    }

    /** The duration, which is there even when the action is inherited, and the delays. */
    method ParseTail(p: Progress, flags: Byte, offset: nat, ghost diff: nat, ghost w: What)
      returns (status: Status, r: Progress, next: nat, ghost s: Stored)
      ensures Agrees(ReadTail(buffer[..], offset, p.action, flags, diff, w, MAX_DURATION), status, s, next)
      ensures status == Success ==>
                s.diff == diff && s.what == w
                && r == p.(duration := if HasTarget(p.action) then s.duration else 0,
                           preDelay := ValueOf(s.preDelay), postDelay := ValueOf(s.postDelay))
    {
      hide ReadOption;
      ghost var d, pre, post;
      var duration;
      r, s := p, Stored(diff, w, 0, None, None);
      status, duration, next, d := ParseOption(HasTarget(r.action), offset);
      if status != Success { return; }
      ReadAbsentLimited(buffer[..], offset, HasTarget(r.action));
      r := r.(duration := duration);
      status, duration, next, pre := ParseOption(flags / 2 % 2 == 1, next);
      if status != Success { return; }
      r := r.(preDelay := duration);
      status, duration, next, post := ParseOption(flags % 2 == 1, next);
      if status != Success { return; }
      r := r.(postDelay := duration);
      s := Stored(diff, w, ValueOf(d), pre, post);
    }

    /** The loop over the table. */
    method Scan(query: real, num: nat) returns (status: Status, p: Progress)
      requires Valid() && num == Count(buffer[..]) && SearchOf(buffer[..], query) != PastEnd
      ensures match SearchOf(buffer[..], query)
              case Error(e) => status == e != Success
              case Found(q) => status == Success && p == q
    {
      hide ReadEntry, Next, Word;
      ghost var bytes := buffer[..];
      ghost var outcome := SearchOf(bytes, query);
      var offset: nat := headerLength + numPoints * 4 + 2;
      var i, found := 0, query < 0.0;
      p := Initial(query);
      while i < num && !found
        invariant i <= num && Uint32(p.time)
        invariant outcome == if found then Found(p) else SearchFrom(p, scale, bytes, offset, num - i, query)
      {
        ghost var s;
        status, p, offset, s := ParseEntry(p, offset);
        if status != Success { return; }
        found := p.time as real >= query;
        i := i + 1;
      }
      status := Success;
    }

    /** What to do when the plan is triggered at the given time. */
    method EvaluateAt(query: real) returns (status: Status, entry: Entry)
      requires Valid() && Evaluate(buffer[..], query) != Undefined
      ensures match Evaluate(buffer[..], query)
              case Answer(e) => status == Success && entry == e
              case Refusal(e) => status == e != Success
    {
      hide SearchOf, Word, PointOf;
      entry := Handed(Initial(query), 0.0, 0.0);
      var num := GetNumEntries();
      var p;
      status, p := Scan(query, num);
      if status != Success { return; }
      var x, y := 0.0, 0.0;
      if HasTarget(p.action) {
        status, x, y := GetPoint(p.point);
        if status != Success { return; }
      }
      entry := Handed(p, x, y);
      status := Success;
    }
  }

  lemma ReadAbsentLimited(bytes: seq<Byte>, at: nat, present: bool)
    ensures !present ==> ReadOption(bytes, at, present, MAX_DURATION) == Got(None, at)
  {
  }

  // ---- an example ----

  /** Landing until 0 s; from then on to the first point in 50 s and waiting there for 5 s, at 3 s;
      the time of the third entry is beyond 32 bits. */
  const EXAMPLE := Contents(10, [3000, 4000, -4000, -3000], 6,
                            [Stored(0, LandHere, 0, None, None), Stored(3, Keep(0), 50, None, Some(5)),
                             Stored(0xFFFF_FFFF, Keep(1), 50, Some(2), None)])

  const EXAMPLE_ENTRIES: seq<Byte> := [0x10, 0x00]
                                      + ([0x21, 0x03, 0x00, 0x32, 0x05]
                                         + [0x22, 0xFF, 0xFF, 0xFF, 0xFF, 0x0F, 0x01, 0x32, 0x02])

  const EXAMPLE_BYTES: seq<Byte> := [0x0A] + ([0x02, 0x00]
                                              + ([0xB8, 0x0B, 0xA0, 0x0F, 0x60, 0xF0, 0x48, 0xF4]
                                                 + ([0x06, 0x00] + EXAMPLE_ENTRIES)))

  lemma ExampleNumbers()
    ensures Varint.Encode(0) == [0] && Varint.Encode(1) == [1] && Varint.Encode(2) == [2] && Varint.Encode(3) == [3]
    ensures Varint.Encode(5) == [5] && Varint.Encode(50) == [0x32]
    ensures Varint.Encode(0xFFFF_FFFF) == [0xFF, 0xFF, 0xFF, 0xFF, 0x0F]
  {
    assert Varint.Encode(0xF) == [0xF];
    assert Varint.Encode(0x7FF) == [0xFF, 0xF];
    assert Varint.Encode(0x3_FFFF) == [0xFF, 0xFF, 0xF];
    assert Varint.Encode(0x1FF_FFFF) == [0xFF, 0xFF, 0xFF, 0xF];
  }

  lemma FirstEntry()
    ensures var s := Stored(0, LandHere, 0, None, None);
            StorableEntry(s) && Plain(Land, s) && EncodeEntry(Land, s) == [0x10, 0x00]
  {
    hide Varint.Encode;
    ExampleNumbers();
  }

  lemma SecondEntry()
    ensures var s := Stored(3, Keep(0), 50, None, Some(5));
            StorableEntry(s) && Plain(Land, s) && EncodeEntry(Land, s) == [0x21, 0x03, 0x00, 0x32, 0x05]
  {
    hide Varint.Encode;
    ExampleNumbers();
  }

  lemma ThirdEntry()
    ensures var s := Stored(0xFFFF_FFFF, Keep(1), 50, Some(2), None);
            StorableEntry(s) && Plain(GoToKeepingAltitude, s)
            && EncodeEntry(GoToKeepingAltitude, s) == [0x22, 0xFF, 0xFF, 0xFF, 0xFF, 0x0F, 0x01, 0x32, 0x02]
  {
    hide Varint.Encode;
    ExampleNumbers();
    var tail := Varint.Encode(1) + ([0x32] + ([2] + []));
    assert tail == [0x01, 0x32, 0x02];
  }

  lemma ExampleEntries()
    ensures var ss := EXAMPLE.entries;
            AllStorable(ss) && AllPlain(Land, ss) && EncodeEntries(Land, ss) == EXAMPLE_ENTRIES
  {
    hide EncodeEntry, StorableEntry, Plain;
    FirstEntry();
    SecondEntry();
    ThirdEntry();
    var ss := EXAMPLE.entries;
    assert ss[1..] == [ss[1], ss[2]] && ss[1..][1..] == [ss[2]] && [ss[2]][1..] == [];
    assert EncodeEntries(GoToKeepingAltitude, [ss[2]]) == EncodeEntry(GoToKeepingAltitude, ss[2]);
  }

  lemma ExampleHeld()
    ensures HoldsPlan(EXAMPLE_BYTES, EXAMPLE)
  {
    hide Words, EncodeEntries, HoldsPlan, AllStorable, AllPlain, AllInt16;
    ExampleEntries();
    ExamplePoints();
    assert Le16(2) == [2, 0] && Le16(6) == [6, 0];
    hide Le16;
    assert EncodePlan(EXAMPLE) == EXAMPLE_BYTES;
    EncodedPlan(EXAMPLE_BYTES, EXAMPLE);
  }

  lemma ExamplePoints()
    ensures AllInt16(EXAMPLE.points)
    ensures Words(EXAMPLE.points) == [0xB8, 0x0B, 0xA0, 0x0F, 0x60, 0xF0, 0x48, 0xF4]
  {
    var ps := EXAMPLE.points;
    assert ps[1..] == [4000, -4000, -3000] && ps[1..][1..] == [-4000, -3000] && ps[1..][1..][1..] == [-3000];
    assert Words([-3000]) == [0x48, 0xF4] && Words([-4000, -3000]) == [0x60, 0xF0, 0x48, 0xF4];
    assert Words([4000, -4000, -3000]) == [0xA0, 0x0F, 0x60, 0xF0, 0x48, 0xF4];
  }

  /** What the example answers at 2 s and at 4 s. */
  lemma ExampleAnswers()
    ensures Evaluate(EXAMPLE_BYTES, 2.0)
            == Answer(Entry(Number(3.0), GoToKeepingAltitude, Number(50.0), 30000.0, 40000.0, 0.0, Number(0.0),
                            Number(5.0), 0.0, Number(0.0)))
    ensures Evaluate(EXAMPLE_BYTES, 4.0) == Refusal(EOverflow)
  {
    hide Evaluate, HoldsPlan, Walk;
    ExampleHeld();
    var ss := EXAMPLE.entries;
    assert TimeOf(ss, 0) == 0 && TimeOf(ss, 1) == 3 && TimeOf(ss, 2) >= UINT32_MODULUS;
    assert InForce(ss, 0) == LandHere && InForce(ss, 1) == Keep(0);
    assert Usable(ss, 0) && Usable(ss, 1) && !Usable(ss, 2);
    assert Gets(ss, 1, 2.0) && Gets(ss, 2, 4.0);
    AnswerIsStored(EXAMPLE_BYTES, EXAMPLE, 2.0, 1);
    WalkFinds(ss, EXAMPLE.scale, EXAMPLE.count, 4.0, 2);
    EvaluatePlan(EXAMPLE_BYTES, EXAMPLE, 4.0);
  }
}
