// Yaw control: a list of yaw changes, played with one cached setpoint.
module YawControl {
  import opened Basics
  import opened Parsing
  import opened Timeline
  import TrajectoryFormat

  const SIZE_OF_DELTA: nat := 4
  const HEADER_LENGTH: nat := 3

  /** What stands in the block: the yaw changes by `change` tenths of a degree. */
  datatype Delta = Delta(duration: nat, change: int)

  predicate StorableDelta(d: Delta) { d.duration < 0x10000 && Int16(d.change) }

  predicate AllStorable(deltas: seq<Delta>) { forall i :: 0 <= i < |deltas| ==> StorableDelta(deltas[i]) }

  function EncodeDelta(d: Delta): (b: seq<Byte>)
    requires StorableDelta(d)
    ensures |b| == SIZE_OF_DELTA
  {
    Le16(d.duration) + Le16(Unsigned(d.change))
  }

  function EncodeDeltas(deltas: seq<Delta>): (b: seq<Byte>)
    requires AllStorable(deltas)
    ensures |b| == SIZE_OF_DELTA * |deltas|
  {
    if deltas == [] then [] else EncodeDelta(deltas[0]) + EncodeDeltas(deltas[1..])
  }

  /** A whole block. */
  function Encode(autoYaw: bool, offset: int, deltas: seq<Delta>): seq<Byte>
    requires Int16(offset) && AllStorable(deltas)
  {
    [if autoYaw then 1 else 0] + Le16(Unsigned(offset)) + EncodeDeltas(deltas)
  }

  function Durations(deltas: seq<Delta>): (ds: seq<nat>)
    ensures |ds| == |deltas| && forall i :: 0 <= i < |deltas| ==> ds[i] == deltas[i].duration
  {
    seq(|deltas|, i requires 0 <= i < |deltas| => deltas[i].duration)
  }

  /** The yaw before delta k, in tenths of a degree: the offset and the changes so far. */
  function YawBefore(offset: int, deltas: seq<Delta>, k: nat): int
    requires k <= |deltas|
  {
    if k == 0 then offset else YawBefore(offset, deltas, k - 1) + deltas[k - 1].change
  }

  /** The yaw after t seconds, in tenths of a degree: the changes are spread evenly over their
      durations, and after the last one the yaw stays. */
  function Profile(yaw: real, deltas: seq<Delta>, t: real): real
    decreases |deltas|
  {
    if deltas == [] then yaw
    else
      var d := Sec(deltas[0].duration);
      if t <= d && d > 0.0 then yaw + deltas[0].change as real * (t / d)
      else Profile(yaw + deltas[0].change as real, deltas[1..], t - d)
  }

  function YawAt(offset: int, deltas: seq<Delta>, t: Time): real {
    match t
    case Finite(s) => Profile(offset as real, deltas, if s <= 0.0 then 0.0 else s)
    case Infinite => YawBefore(offset, deltas, |deltas|) as real
  }

  // ---- from any setpoint the same yaw ----

  /** What the player computes from setpoint k. */
  function FromSetpoint(offset: int, deltas: seq<Delta>, k: nat, t: Time): real
    requires k <= |deltas|
  {
    YawBefore(offset, deltas, k) as real
    + (if k == |deltas| then 0.0 else deltas[k].change as real) * RelativeTime(Durations(deltas), k, t)
  }

  lemma {:induction false} TailYaw(offset: int, deltas: seq<Delta>, k: nat)
    requires 1 <= k <= |deltas|
    ensures YawBefore(offset + deltas[0].change, deltas[1..], k - 1) == YawBefore(offset, deltas, k)
  {
    if k > 1 {
      TailYaw(offset, deltas, k - 1);
    } else {
      assert YawBefore(offset, deltas, 0) == offset;
    }
  }

  /** No delta changes the yaw in no time. */
  predicate NoJumps(deltas: seq<Delta>) {
    forall k :: 0 <= k < |deltas| ==> deltas[k].duration == 0 ==> deltas[k].change == 0
  }

  /** At its own start a setpoint that is no jump gives the yaw it starts with. */
  lemma AtItsStart(offset: int, deltas: seq<Delta>, k: nat)
    requires k <= |deltas|
    requires k < |deltas| ==> deltas[k].duration == 0 ==> deltas[k].change == 0
    ensures FromSetpoint(offset, deltas, k, Finite(Sec(StartMsec(Durations(deltas), k))))
            == YawBefore(offset, deltas, k) as real
  {
    hide StartMsec, YawBefore;
    if k < |deltas| { SecSum(Durations(deltas)[k], 0); }
  }

  lemma FirstYaws(offset: int, deltas: seq<Delta>)
    ensures YawBefore(offset, deltas, 0) == offset
    ensures deltas != [] ==> YawBefore(offset, deltas, 1) == offset + deltas[0].change
    ensures StartMsec(Durations(deltas), 0) == 0
    ensures deltas != [] ==> StartMsec(Durations(deltas), 1) == deltas[0].duration
  {
    if deltas != [] { StartStep(Durations(deltas), 0); }
    StartOfFirst(Durations(deltas));
  }

  lemma NoJumpsLater(deltas: seq<Delta>)
    requires NoJumps(deltas) && deltas != []
    ensures NoJumps(deltas[1..])
  {
    forall k | 0 <= k < |deltas| - 1 && deltas[1..][k].duration == 0 ensures deltas[1..][k].change == 0 {
      assert deltas[1..][k] == deltas[k + 1];
    }
  }

  /** Within the first delta, if it takes time. */
  lemma FirstIsProfile(offset: int, deltas: seq<Delta>, t: real)
    requires deltas != [] && deltas[0].duration > 0 && 0.0 <= t <= Sec(deltas[0].duration)
    ensures Contains(Durations(deltas), 0, Finite(t))
    ensures FromSetpoint(offset, deltas, 0, Finite(t)) == Profile(offset as real, deltas, t)
  {
    hide StartMsec, YawBefore;
    var ds := Durations(deltas);
    var d := Sec(ds[0]);
    FirstYaws(offset, deltas);
    StartStep(ds, 0);
    SecSum(ds[0], 0);
    assert (t - 0.0) / d == t / d;
  }

  /** The formula of any setpoint that contains the time agrees with the profile. */
  lemma {:induction false} SetpointIsProfile(offset: int, deltas: seq<Delta>, k: nat, t: real)
    requires NoJumps(deltas) && t >= 0.0 && Contains(Durations(deltas), k, Finite(t))
    ensures FromSetpoint(offset, deltas, k, Finite(t)) == Profile(offset as real, deltas, t)
    decreases |deltas|
  {
    hide StartMsec, YawBefore, Contains, NoJumps;
    ContainsBound(Durations(deltas), k, Finite(t));
    FirstYaws(offset, deltas);
    if deltas != [] {
      var ds, rest := Durations(deltas), deltas[1..];
      SecSum(ds[0], 0);
      if deltas[0].duration > 0 && t <= Sec(ds[0]) {
        FirstIsProfile(offset, deltas, t);
        if k > 0 { SameWithoutJumps(offset, deltas, 0, k, Finite(t)); }
      } else {
        NoJumpsLater(deltas);
        assert Durations(rest) == ds[1..];
        if k == 0 {
          FirstEnds(ds, t);
          FirstContains(Durations(rest));
          JumpAtStart(offset, deltas);
          SetpointIsProfile(offset + deltas[0].change, rest, 0, 0.0);
        } else {
          RestTime(ds, k, t);
          TailYaw(offset, deltas, k);
          SetpointIsProfile(offset + deltas[0].change, rest, k - 1, t - Sec(ds[0]));
        }
      }
    }
  }

  lemma FirstContains(ds: seq<nat>)
    ensures Contains(ds, 0, Finite(0.0))
  {
    StartOfFirst(ds);
    if ds != [] { StartStep(ds, 0); }
  }

  /** A first delta that takes no time and changes nothing. */
  lemma JumpAtStart(offset: int, deltas: seq<Delta>)
    requires NoJumps(deltas) && deltas != [] && deltas[0].duration == 0
    ensures FromSetpoint(offset, deltas, 0, Finite(0.0)) == offset as real
    ensures FromSetpoint(offset + deltas[0].change, deltas[1..], 0, Finite(0.0)) == offset as real
  {
    hide StartMsec, FromSetpoint;
    var rest := deltas[1..];
    NoJumpsLater(deltas);
    StartOfFirst(Durations(deltas));
    StartOfFirst(Durations(rest));
    SecSum(0, 0);
    AtItsStart(offset, deltas, 0);
    AtItsStart(offset + deltas[0].change, rest, 0);
  }

  /** Whatever setpoint the player has cached, it computes the same yaw: the profile. */
  lemma SameFromAnySetpoint(offset: int, deltas: seq<Delta>, k: nat, t: Time)
    requires NoJumps(deltas) && k <= |deltas|
    ensures ProfileShown(offset, deltas, k, t)
  {
    hide Profile, Land, NoJumps;
    LandContains(Durations(deltas), k, t);
    var j := Land(Durations(deltas), k, Clip(t));
    if t.Finite? { SetpointIsProfile(offset, deltas, j, Clip(t).t); }
  }

  ghost predicate ProfileShown(offset: int, deltas: seq<Delta>, k: nat, t: Time)
    requires k <= |deltas|
  {
    FromSetpoint(offset, deltas, Land(Durations(deltas), k, Clip(t)), Clip(t)) == YawAt(offset, deltas, t)
  }

  /** Every answer of a player is the yaw of the profile. */
  ghost predicate ShowsProfile(offset: int, deltas: seq<Delta>) {
    forall k: nat, t: Time :: k <= |deltas| ==> ProfileShown(offset, deltas, k, t)
  }

  /** Whatever is cached and whatever time is asked for, the yaw is that of the profile, if and
      only if no delta changes the yaw in no time. */
  lemma ShowsProfileIff(offset: int, deltas: seq<Delta>)
    ensures ShowsProfile(offset, deltas) <==> NoJumps(deltas)
  {
    hide FromSetpoint, YawAt, Land, NoJumps;
    if NoJumps(deltas) {
      forall k: nat, t: Time | k <= |deltas| ensures ProfileShown(offset, deltas, k, t) {
        SameFromAnySetpoint(offset, deltas, k, t);
      }
    }
    if ShowsProfile(offset, deltas) {
      forall k: nat, t: Time | k <= |deltas| ensures SameAsFresh(offset, deltas, k, t) {
        assert ProfileShown(offset, deltas, k, t) && ProfileShown(offset, deltas, 0, t);
      }
      HistoryFreeIff(offset, deltas);
    }
  }

  /** A change is even: so many seconds after the deltas before it, whatever setpoint is cached, the
      fraction u of the duration of a delta has made the fraction u of its change. */
  lemma DeltaPlaysEvenly(offset: int, deltas: seq<Delta>, k: nat, u: real, cached: nat)
    requires NoJumps(deltas) && k < |deltas| && deltas[k].duration > 0 && 0.0 <= u <= 1.0 && cached <= |deltas|
    ensures var ds := Durations(deltas);
            var t := Finite((TrajectoryFormat.Sum(ds[..k]) as real + u * ds[k] as real) / 1000.0);
            FromSetpoint(offset, deltas, Land(ds, cached, t), t)
            == YawBefore(offset, deltas, k) as real + deltas[k].change as real * u
  {
    hide NoJumps, Land, YawBefore, TrajectoryFormat.Sum, Profile, Contains, RelativeTime;
    var ds := Durations(deltas);
    MomentInside(ds, k, u);
    var t := Moment(TrajectoryFormat.Sum(ds[..k]), u, ds[k]);
    LandContains(ds, cached, t);
    SetpointIsProfile(offset, deltas, k, t.t);
    SetpointIsProfile(offset, deltas, Land(ds, cached, t), t.t);
  }

  /** For instance: a quarter turn in two seconds, from ten degrees; asked after one
      second, and after the end. */
  lemma QuarterTurn(cached: nat)
    requires cached <= 1
    ensures var deltas := [Delta(2000, 900)];
            FromSetpoint(100, deltas, Land(Durations(deltas), cached, Finite(1.0)), Finite(1.0)) == 550.0
            && YawAt(100, deltas, Finite(3.0)) == 1000.0
  {
    var deltas := [Delta(2000, 900)];
    var ds := Durations(deltas);
    assert ds == [2000] && ds[..0] == [] && ds[1..] == [] && TrajectoryFormat.Sum([]) == 0;
    assert TrajectoryFormat.Sum(ds) == 2000;
    assert YawBefore(100, deltas, 0) == 100 && YawBefore(100, deltas, 1) == 1000;
    hide FromSetpoint, Land, YawAt;
    DeltaPlaysEvenly(100, deltas, 0, 0.5, cached);
    StaysAtTheEnd(100, deltas, 3.0);
  }

  /** After the last change the yaw is the offset and all changes, for ever. */
  lemma StaysAtTheEnd(offset: int, deltas: seq<Delta>, t: real)
    requires NoJumps(deltas) && t >= Sec(TrajectoryFormat.Sum(Durations(deltas)))
    ensures YawAt(offset, deltas, Finite(t)) == YawBefore(offset, deltas, |deltas|) as real
  {
    hide NoJumps;
    var ds := Durations(deltas);
    StartOfFirst(ds);
    assert Contains(ds, |ds|, Finite(t));
    SetpointIsProfile(offset, deltas, |ds|, t);
  }

  // ---- changes that take no time ----

  /** The answer at every time is the same whatever setpoint is cached. */
  ghost predicate HistoryFree(offset: int, deltas: seq<Delta>) {
    forall k: nat, t: Time :: k <= |deltas| ==> SameAsFresh(offset, deltas, k, t)
  }

  ghost predicate SameAsFresh(offset: int, deltas: seq<Delta>, k: nat, t: Time)
    requires k <= |deltas|
  {
    var ds := Durations(deltas);
    FromSetpoint(offset, deltas, Land(ds, k, Clip(t)), Clip(t))
    == FromSetpoint(offset, deltas, Land(ds, 0, Clip(t)), Clip(t))
  }

  /** Without positive durations the answer may depend on what was asked before: it does not
      exactly when every delta of duration zero has change zero. */
  lemma HistoryFreeIff(offset: int, deltas: seq<Delta>)
    ensures HistoryFree(offset, deltas) <==> NoJumps(deltas)
  {
    hide FromSetpoint, Land, Contains;
    if NoJumps(deltas) {
      forall k: nat, t: Time | k <= |deltas| ensures SameAsFresh(offset, deltas, k, t) {
        var ds := Durations(deltas);
        var i, j := Land(ds, 0, Clip(t)), Land(ds, k, Clip(t));
        LandContains(ds, 0, t);
        LandContains(ds, k, t);
        if i < j { SameWithoutJumps(offset, deltas, i, j, Clip(t)); }
        if j < i { SameWithoutJumps(offset, deltas, j, i, Clip(t)); }
      }
    } else {
      var m := LastJump(deltas, |deltas|);
      JumpShows(offset, deltas, m);
    }
  }

  lemma {:induction false} LastJump(deltas: seq<Delta>, n: nat) returns (m: nat)
    requires n <= |deltas| && !NoJumps(deltas)
    requires forall k :: n <= k < |deltas| ==> deltas[k].duration == 0 ==> deltas[k].change == 0
    ensures m < |deltas| && deltas[m].duration == 0 && deltas[m].change != 0
    ensures forall k :: m < k < |deltas| ==> deltas[k].duration == 0 ==> deltas[k].change == 0
    decreases n
  {
    if n > 0 && deltas[n - 1].duration == 0 && deltas[n - 1].change != 0 {
      m := n - 1;
    } else {
      m := LastJump(deltas, n - 1);
    }
  }

  /** One degree in no time: at time zero a player answers half of it from the change itself
      and all of it from the setpoint after it. */
  lemma JumpDeparts()
    ensures var deltas := [Delta(0, 10)];
            Land(Durations(deltas), 0, Finite(0.0)) == 0 && FromSetpoint(0, deltas, 0, Finite(0.0)) == 5.0
            && Land(Durations(deltas), 1, Finite(0.0)) == 1 && FromSetpoint(0, deltas, 1, Finite(0.0)) == 10.0
            && !HistoryFree(0, deltas)
  {
    hide HistoryFree;
    var deltas := [Delta(0, 10)];
    var ds := Durations(deltas);
    HistoryFreeIff(0, deltas);
    assert !NoJumps(deltas) by { assert deltas[0].duration == 0 && deltas[0].change != 0; }
    StartOfFirst(ds);
    StartStep(ds, 0);
  }

  /** A player that has the jump cached is half way through it; one that has the next
      setpoint cached is beyond it. */
  lemma JumpShows(offset: int, deltas: seq<Delta>, m: nat)
    requires m < |deltas| && deltas[m].duration == 0 && deltas[m].change != 0
    requires forall k :: m < k < |deltas| ==> deltas[k].duration == 0 ==> deltas[k].change == 0
    ensures !HistoryFree(offset, deltas)
  {
    hide StartMsec;
    var ds := Durations(deltas);
    var t := Finite(Sec(StartMsec(ds, m)));
    StartStep(ds, m);
    assert Land(ds, m, t) == m;
    if m + 1 < |deltas| { StartStep(ds, m + 1); }
    assert Land(ds, m + 1, t) == m + 1;
    AtItsStart(offset, deltas, m + 1);
    assert FromSetpoint(offset, deltas, m, t)
           == YawBefore(offset, deltas, m) as real + deltas[m].change as real * 0.5;
    assert FromSetpoint(offset, deltas, m + 1, t) == YawBefore(offset, deltas, m + 1) as real;
    assert Clip(t) == t;
    assert !SameAsFresh(offset, deltas, m, t) || !SameAsFresh(offset, deltas, m + 1, t);
  }

  lemma SameWithoutJumps(offset: int, deltas: seq<Delta>, i: nat, j: nat, t: Time)
    requires NoJumps(deltas) && i < j
    requires Contains(Durations(deltas), i, t) && Contains(Durations(deltas), j, t)
    ensures FromSetpoint(offset, deltas, i, t) == FromSetpoint(offset, deltas, j, t)
  {
    hide StartMsec, FromSetpoint;
    var ds := Durations(deltas);
    StartMonotone(ds, i + 1, j);
    StartStep(ds, i);
    assert t == Finite(Sec(StartMsec(ds, j))) && StartMsec(ds, i + 1) == StartMsec(ds, j);
    AtItsStart(offset, deltas, j);
    NoChange(offset, deltas, i + 1, j);
    AtItsEnd(offset, deltas, i);
  }

  lemma AtItsEnd(offset: int, deltas: seq<Delta>, i: nat)
    requires NoJumps(deltas) && i < |deltas|
    ensures FromSetpoint(offset, deltas, i, Finite(Sec(StartMsec(Durations(deltas), i + 1))))
            == YawBefore(offset, deltas, i + 1) as real
  {
    hide StartMsec;
    var ds := Durations(deltas);
    StartStep(ds, i);
    SecSum(StartMsec(ds, i), ds[i]);
    SecSum(ds[i], 0);
  }

  lemma {:induction false} NoChange(offset: int, deltas: seq<Delta>, i: nat, j: nat)
    requires NoJumps(deltas) && i <= j <= |deltas|
    requires StartMsec(Durations(deltas), i) == StartMsec(Durations(deltas), j)
    ensures YawBefore(offset, deltas, i) == YawBefore(offset, deltas, j)
    decreases j
  {
    hide StartMsec;
    if i < j {
      var ds := Durations(deltas);
      StartStep(ds, j - 1);
      StartMonotone(ds, i, j - 1);
      NoChange(offset, deltas, i, j - 1);
    }
  }

  // ---- the player ----

  /** Delta k as it is read from its place. */
  function DeltaOf(bytes: seq<Byte>, k: nat): (d: Delta)
    requires HEADER_LENGTH + SIZE_OF_DELTA * (k + 1) <= |bytes|
    ensures StorableDelta(d)
  {
    var at := HEADER_LENGTH + SIZE_OF_DELTA * k;
    Delta(Word(bytes, at), Signed(Word(bytes, at + 2)))
  }

  /** The deltas of a block. */
  function ReadDeltas(bytes: seq<Byte>): (deltas: seq<Delta>)
    requires |bytes| >= HEADER_LENGTH
    ensures |deltas| == (|bytes| - HEADER_LENGTH) / SIZE_OF_DELTA && AllStorable(deltas)
    ensures forall k :: 0 <= k < |deltas| ==> deltas[k] == DeltaOf(bytes, k)
  {
    seq((|bytes| - HEADER_LENGTH) / SIZE_OF_DELTA,
        k requires 0 <= k < (|bytes| - HEADER_LENGTH) / SIZE_OF_DELTA => DeltaOf(bytes, k))
  }

  /** A block that its deltas fill exactly; what it says is what is read from it. A block of a file
      is shorter than 65536 bytes. */
  ghost predicate WellFormed(bytes: seq<Byte>, autoYaw: bool, offset: int, deltas: seq<Delta>) {
    HEADER_LENGTH <= |bytes| < 0x10000 && (|bytes| - HEADER_LENGTH) % SIZE_OF_DELTA == 0
    && (autoYaw <==> bytes[0] % 2 == 1) && offset == Signed(Word(bytes, 1)) && deltas == ReadDeltas(bytes)
  }

  lemma {:induction false} DeltaAt(bytes: seq<Byte>, at: nat, deltas: seq<Delta>, k: nat)
    requires AllStorable(deltas) && k < |deltas| && Basics.At(bytes, at, EncodeDeltas(deltas))
    ensures at + 4 * k + 4 <= |bytes|
    ensures Word(bytes, at + 4 * k) == deltas[k].duration
    ensures Signed(Word(bytes, at + 4 * k + 2)) == deltas[k].change
    decreases k
  {
    var d := deltas[0];
    AtSplit(bytes, at, EncodeDelta(d), EncodeDeltas(deltas[1..]));
    if k == 0 {
      AtSplit(bytes, at, Le16(d.duration), Le16(Unsigned(d.change)));
      ReadWritten(bytes, at, d.duration);
      ReadWritten(bytes, at + 2, Unsigned(d.change));
    } else {
      DeltaAt(bytes, at + 4, deltas[1..], k - 1);
    }
  }

  /** Round trip: an encoded block of deltas reads as these deltas, whatever the other bits of its
      first byte are. */
  lemma EncodedReads(bytes: seq<Byte>, autoYaw: bool, offset: int, deltas: seq<Delta>)
    requires Int16(offset) && AllStorable(deltas) && |Encode(autoYaw, offset, deltas)| < 0x10000
    requires |bytes| == |Encode(autoYaw, offset, deltas)| && bytes[1..] == Encode(autoYaw, offset, deltas)[1..]
    requires bytes[0] % 2 == if autoYaw then 1 else 0
    ensures WellFormed(bytes, autoYaw, offset, deltas)
  {
    hide EncodeDeltas, Word, EncodeDelta;
    var b := Encode(autoYaw, offset, deltas);
    assert bytes[1..3] == bytes[1..][..2] == Le16(Unsigned(offset));
    ReadWritten(bytes, 1, Unsigned(offset));
    assert bytes[HEADER_LENGTH..] == bytes[1..][2..] == EncodeDeltas(deltas);
    forall k | 0 <= k < |deltas| ensures DeltaOf(bytes, k) == deltas[k] {
      DeltaAt(bytes, HEADER_LENGTH, deltas, k);
    }
  }

  /** And a block encodes to its own bytes, apart from those bits. */
  lemma ReadEncodes(bytes: seq<Byte>, autoYaw: bool, offset: int, deltas: seq<Delta>)
    requires WellFormed(bytes, autoYaw, offset, deltas)
    ensures |Encode(autoYaw, offset, deltas)| == |bytes| && Encode(autoYaw, offset, deltas)[1..] == bytes[1..]
  {
    hide EncodeDeltas, Word, Le16;
    WordBytes(bytes, 1);
    DeltasEncode(bytes, deltas, 0);
    assert deltas[0..] == deltas;
    assert bytes[1..] == bytes[1..3] + bytes[HEADER_LENGTH..];
  }

  lemma {:induction false} DeltasEncode(bytes: seq<Byte>, deltas: seq<Delta>, k: nat)
    requires |bytes| >= HEADER_LENGTH && (|bytes| - HEADER_LENGTH) % SIZE_OF_DELTA == 0
    requires deltas == ReadDeltas(bytes) && k <= |deltas|
    ensures EncodeDeltas(deltas[k..]) == bytes[HEADER_LENGTH + SIZE_OF_DELTA * k..]
    decreases |deltas| - k
  {
    hide Word, Le16, ReadDeltas;
    if k < |deltas| {
      DeltasEncode(bytes, deltas, k + 1);
      var at := HEADER_LENGTH + SIZE_OF_DELTA * k;
      WordBytes(bytes, at);
      WordBytes(bytes, at + 2);
      assert deltas[k..][0] == deltas[k] && deltas[k..][1..] == deltas[k + 1..];
      assert bytes[at..] == bytes[at..at + 2] + bytes[at + 2..at + 4] + bytes[at + 4..];
    }
  }

  /** A block of eleven bytes: no automatic yaw, ten degrees to begin with, a quarter turn in two
      seconds, and half of it back in one. */
  lemma ExampleBlock()
    ensures Encode(false, 100, [Delta(2000, 900), Delta(1000, -450)])
            == [0, 100, 0, 0xD0, 0x07, 0x84, 0x03, 0xE8, 0x03, 0x3E, 0xFE]
    ensures WellFormed([0, 100, 0, 0xD0, 0x07, 0x84, 0x03, 0xE8, 0x03, 0x3E, 0xFE], false, 100,
                       [Delta(2000, 900), Delta(1000, -450)])
  {
    var first, second := Delta(2000, 900), Delta(1000, -450);
    assert [first, second][1..] == [second] && [second][1..] == [];
    assert EncodeDelta(first) == [0xD0, 0x07, 0x84, 0x03] && EncodeDelta(second) == [0xE8, 0x03, 0x3E, 0xFE];
    assert EncodeDeltas([second]) == EncodeDelta(second);
    hide EncodeDelta, WellFormed;
    assert EncodeDeltas([first, second]) == EncodeDelta(first) + EncodeDelta(second);
    var bytes: seq<Byte> := [0, 100, 0, 0xD0, 0x07, 0x84, 0x03, 0xE8, 0x03, 0x3E, 0xFE];
    assert Encode(false, 100, [first, second]) == bytes;
    EncodedReads(bytes, false, 100, [first, second]);
  }

  /** The durations of a whole block stay within 32 bits. */
  lemma BlockIsShort(bytes: seq<Byte>, autoYaw: bool, offset: int, deltas: seq<Delta>)
    requires WellFormed(bytes, autoYaw, offset, deltas)
    ensures TrajectoryFormat.Sum(Durations(deltas)) < UINT32_MODULUS
  {
    SumBounded(Durations(deltas));
  }

  lemma {:induction false} SumBounded(ds: seq<nat>)
    requires forall i :: 0 <= i < |ds| ==> ds[i] < 0x10000
    ensures TrajectoryFormat.Sum(ds) <= 0x10000 * |ds|
  {
    if ds != [] { SumBounded(ds[1..]); }
  }

  /** Whole blocks keep the yaw within 32 bits. */
  lemma {:induction false} YawBounded(offset: int, deltas: seq<Delta>, k: nat)
    requires Int16(offset) && AllStorable(deltas) && k <= |deltas|
    ensures -0x8000 * (k + 1) <= YawBefore(offset, deltas, k) <= 0x8000 * (k + 1)
    decreases k
  {
    if k > 0 {
      YawBounded(offset, deltas, k - 1);
      assert StorableDelta(deltas[k - 1]);
    }
  }

  /** What reading delta k gives, and that no sum wraps around. */
  lemma BlockHolds(bytes: seq<Byte>, autoYaw: bool, offset: int, deltas: seq<Delta>, k: nat)
    requires WellFormed(bytes, autoYaw, offset, deltas) && k <= |deltas|
    ensures |bytes| == HEADER_LENGTH + SIZE_OF_DELTA * |deltas|
    ensures k < |deltas| ==>
              var at := HEADER_LENGTH + SIZE_OF_DELTA * k;
              Word(bytes, at) == deltas[k].duration && Signed(Word(bytes, at + 2)) == deltas[k].change
              && YawBefore(offset, deltas, k + 1) == YawBefore(offset, deltas, k) + deltas[k].change
              && (StartMsec(Durations(deltas), k) + deltas[k].duration) % UINT32_MODULUS
                 == StartMsec(Durations(deltas), k + 1)
  {
    hide StartMsec, Word;
    if k < |deltas| {
      BlockIsShort(bytes, autoYaw, offset, deltas);
      NoWrap(Durations(deltas), k);
    }
  }

  class Control {
    const buffer: array<Byte>
    var headerLength: nat
    var numDeltas: nat
    var autoYaw: bool
    var yawOffset: int

    constructor InitFromBuffer(buf: array<Byte>)
      requires buf.Length >= HEADER_LENGTH
      ensures buffer == buf && headerLength == HEADER_LENGTH
      ensures numDeltas == (buf.Length - HEADER_LENGTH) / SIZE_OF_DELTA
      ensures autoYaw <==> buf[0] % 2 == 1
      ensures yawOffset == Signed(Word(buf[..], 1))
    {
      var yaw, offset := ParseInt16(buf, 1);
      buffer, autoYaw, yawOffset, headerLength := buf, buf[0] % 2 == 1, yaw, offset;
      numDeltas := (buf.Length - offset) / SIZE_OF_DELTA;
    }

    ghost predicate Holds(deltas: seq<Delta>)
      reads this, buffer
    {
      headerLength == HEADER_LENGTH && WellFormed(buffer[..], autoYaw, yawOffset, deltas)
    }
  }

  /** The current setpoint: where it stands in the block, and what it says. */
  datatype Setpoint = Setpoint(
    start: nat, length: nat,
    startMsec: nat, durationMsec: nat, endMsec: nat,
    startSec: real, durationSec: Time, endSec: Time,
    startYaw: int, yawChange: int, endYaw: int)

  /** It describes delta k of a block, or the hold after the last one. */
  ghost predicate Describes(p: Setpoint, offset: int, deltas: seq<Delta>, k: nat) {
    var ds := Durations(deltas);
    k <= |deltas|
    && p.start == HEADER_LENGTH + SIZE_OF_DELTA * k
    && p.startMsec == StartMsec(ds, k) && p.startSec == Sec(p.startMsec)
    && p.startYaw == YawBefore(offset, deltas, k)
    && if k < |deltas| then
         p.length == SIZE_OF_DELTA && p.durationMsec == ds[k] && p.durationSec == Finite(Sec(p.durationMsec))
         && p.endMsec == StartMsec(ds, k + 1) && p.endSec == Finite(Sec(p.endMsec))
         && p.yawChange == deltas[k].change && p.endYaw == YawBefore(offset, deltas, k + 1)
       else
         p.length == 0 && p.durationSec == Infinite && p.endSec == Infinite
         && p.yawChange == 0 && p.endYaw == p.startYaw
  }

  class Player {
    const ctrl: Control
    var current: Setpoint
    /** What the block holds, and which of its deltas is cached. */
    ghost const deltas: seq<Delta>
    ghost var index: nat

    ghost predicate Valid()
      reads this, ctrl, ctrl.buffer
    {
      ctrl.Holds(deltas) && Describes(current, ctrl.yawOffset, deltas, index)
    }

    constructor (ctrl: Control, ghost deltas: seq<Delta>)
      requires ctrl.Holds(deltas)
      ensures Valid() && this.ctrl == ctrl && this.deltas == deltas && index == 0
    {
      this.ctrl, this.deltas := ctrl, deltas;
      current := Setpoint(0, 0, 0, 0, 0, 0.0, Finite(0.0), Finite(0.0), 0, 0, 0);  // all zero bytes
      new;
      Rewind();
    }

    method Rewind()
      requires ctrl.Holds(deltas)
      modifies this
      ensures Valid() && index == 0
    {
      StartOfFirst(Durations(deltas));
      BuildCurrentSetpoint(ctrl.headerLength, 0, ctrl.yawOffset, 0);
    }

    method BuildNextSetpoint()
      requires Valid() && index < |deltas|
      modifies this
      ensures Valid() && index == old(index) + 1
    {
      BuildCurrentSetpoint(current.start + current.length, current.endMsec, current.endYaw, index + 1);
    }

    /** Reads the setpoint at an offset of the block; past the end the yaw is kept for ever. */
    method BuildCurrentSetpoint(offset: nat, startTime: nat, yaw: int, ghost k: nat)
      requires ctrl.Holds(deltas) && k <= |deltas| && offset == HEADER_LENGTH + SIZE_OF_DELTA * k
      requires startTime == StartMsec(Durations(deltas), k) && yaw == YawBefore(ctrl.yawOffset, deltas, k)
      modifies this
      ensures Valid() && index == k
    {
      hide Sec, StartMsec, YawBefore, WellFormed;
      BlockHolds(ctrl.buffer[..], ctrl.autoYaw, ctrl.yawOffset, deltas, k);
      index := k;
      if offset >= ctrl.buffer.Length {
        var remaining := (UINT32_MAX - startTime) % 0x10000;
        current := Setpoint(offset, 0, startTime, remaining, UINT32_MAX, Sec(startTime), Infinite, Infinite,
                            yaw, 0, yaw);
        return;
      }
      var duration, change, next;
      duration, next := ParseUint16(ctrl.buffer, offset);
      var end := (startTime + duration) % UINT32_MODULUS;
      change, next := ParseInt16(ctrl.buffer, next);
      current := Setpoint(offset, next - offset, startTime, duration, end,
                          Sec(startTime), Finite(Sec(duration)), Finite(Sec(end)), yaw, change, yaw + change);
    }

    method HasMoreSetpoints() returns (more: bool)
      requires Valid()
      ensures more <==> index < |deltas|
    {
      more := current.length > 0;
    }

    /** Moves to the setpoint that contains the time. */
    method SeekToTime(time: Time) returns (relative: real)
      requires Valid()
      modifies this
      ensures Valid()
      ensures index == Land(Durations(deltas), old(index), Clip(time))
      ensures relative == RelativeTime(Durations(deltas), index, Clip(time))
    {
      hide StartMsec, YawBefore, Sec, Control.Holds;
      ghost var ds := Durations(deltas);
      var t := if time.Finite? && time.t <= 0.0 then Finite(0.0) else time;
      ghost var rewound := false;
      StartOfFirst(ds);
      while true
        invariant Valid()
        invariant rewound ==> !StartsAfter(ds, index, t)
        invariant Land(ds, index, t) == Land(ds, old(index), t)
        decreases !rewound, |deltas| - index
      {
        SecSum(0, 0);
        if t.Finite? && current.startSec > t.t {
          Rewind();
          rewound := true;
        } else if current.endSec.Finite? && (t.Infinite? || current.endSec.t < t.t) {
          BuildNextSetpoint();
          rewound := true;
        } else {
          if t.Infinite? {
            relative := 1.0;
          } else if current.durationSec.Infinite? {
            relative := 0.0;  // a finite time over an infinite one
          } else if AbsReal(current.durationSec.t) > 0.000001 {
            relative := (t.t - current.startSec) / current.durationSec.t;
          } else {
            relative := 0.5;
          }
          return;
        }
      }
    }

    lemma InBounds()
      requires ctrl.Holds(deltas)
      ensures TrajectoryFormat.Sum(Durations(deltas)) < UINT32_MODULUS
    {
      BlockIsShort(ctrl.buffer[..], ctrl.autoYaw, ctrl.yawOffset, deltas);
    }

    /** The yaw in degrees; without jumps it is that of the profile, whatever was asked before. */
    method GetYawAt(time: Time) returns (yaw: real)
      requires Valid()
      modifies this
      ensures Valid()
      ensures yaw == FromSetpoint(ctrl.yawOffset, deltas, Land(Durations(deltas), old(index), Clip(time)),
                                  Clip(time)) / 10.0
      ensures NoJumps(deltas) ==> yaw == YawAt(ctrl.yawOffset, deltas, time) / 10.0
    {
      hide StartMsec, YawBefore, YawAt, RelativeTime, Control.Holds, Sec, Land, NoJumps;
      if NoJumps(deltas) { SameFromAnySetpoint(ctrl.yawOffset, deltas, index, time); }
      var relative := SeekToTime(time);
      yaw := current.startYaw as real / 10.0 + current.yawChange as real / 10.0 * relative;
      TenthsOfDegrees(current.startYaw as real, current.yawChange as real, relative);
    }

    /** The duration of the whole block. */
    method GetTotalDurationMsec() returns (duration: nat)
      requires Valid()
      modifies this
      ensures Valid() && duration == TrajectoryFormat.Sum(Durations(deltas))
    {
      hide YawBefore, Sec, StartMsec, Control.Holds;
      ghost var ds := Durations(deltas);
      StartOfFirst(ds);
      Rewind();
      duration := 0;
      var more := HasMoreSetpoints();
      while more
        invariant Valid() && duration == StartMsec(ds, index) && (more <==> index < |deltas|)
        decreases |deltas| - index
      {
        InBounds();
        NoWrap(ds, index);
        duration := (duration + current.durationMsec) % UINT32_MODULUS;
        BuildNextSetpoint();
        more := HasMoreSetpoints();
      }
    }
  }

  lemma TenthsOfDegrees(yaw: real, change: real, r: real)
    ensures yaw / 10.0 + change / 10.0 * r == (yaw + change * r) / 10.0
  {
  }
}
