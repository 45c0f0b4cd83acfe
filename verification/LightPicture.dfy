// What a light program shows: the colour at every instant, said without the machine.
module LightPicture {
  import opened Basics
  import opened Iteration
  import opened LightVm
  import opened LightProgram
  import opened LightSchedule
  import opened LightFade
  import opened LightPlayer
  import opened LightSeek
  import opened LightLiveness
  import Varint

  // ---- the picture of a list of commands ----

  /** One channel `elapsed` ms into a fade that takes `duration` ms: the weighted mean of its ends,
      rounded down. */
  function Ramp(from: Byte, to: Byte, elapsed: nat, duration: nat): Byte
    requires elapsed <= duration && duration > 0
  {
    QuotientBelow(Weighted(from, to, elapsed, duration), duration);
    Weighted(from, to, elapsed, duration) / duration
  }

  function Weighted(from: Byte, to: Byte, elapsed: nat, duration: nat): (w: nat)
    requires elapsed <= duration
    ensures w <= 255 * duration
  {
    ProductBelow(from, duration - elapsed);
    ProductBelow(to, elapsed);
    from * (duration - elapsed) + to * elapsed
  }

  lemma ProductBelow(a: Byte, b: nat)
    ensures 0 <= a * b <= 255 * b
  {
  }

  lemma QuotientBelow(x: nat, d: nat)
    requires d > 0 && x <= 255 * d
    ensures 0 <= x / d < 256
  {
    Division(x, d);
    PositiveFactor(256 - x / d, d);
  }

  lemma Division(x: nat, d: nat)
    requires d > 0
    ensures x == (x / d) * d + x % d
  {
  }

  lemma PositiveFactor(k: int, d: nat)
    requires k * d > 0
    ensures k > 0
  {
  }

  function RampRgb(from: Rgb, to: Rgb, elapsed: nat, duration: nat): Rgb
    requires elapsed <= duration && duration > 0
  {
    Rgb(Ramp(from.red, to.red, elapsed, duration),
        Ramp(from.green, to.green, elapsed, duration),
        Ramp(from.blue, to.blue, elapsed, duration))
  }

  /** The colour that a command leads to. */
  function LeadsTo(before: Rgb, c: Command): Rgb {
    match c
    case SetColor(color, _) => color
    case FadeTo(color, _) => color
    case _ => before
  }

  /** The colour so long after a command has started at which the colour was `before`. */
  function PictureAt(before: Rgb, c: Command, elapsed: nat): Rgb {
    if c.FadeTo? && elapsed < c.msec then RampRgb(before, c.color, elapsed, c.msec) else LeadsTo(before, c)
  }

  /** When the next command starts. */
  function Until(at: nat, origin: nat, c: Command): nat {
    match c
    case Sleep(d) => at + d
    case SetColor(_, d) => at + d
    case FadeTo(_, d) => at + d
    case WaitUntil(deadline) => Max(at, origin + deadline)
    case _ => at
  }

  function OriginAfter(at: nat, origin: nat, c: Command): nat { if c.ResetClock? then at else origin }

  /** The start of command k of a list whose first starts at `at`. */
  function StartOf(at: nat, origin: nat, xs: seq<Instr>, k: nat): nat
    requires AllLegal(xs) && k <= |xs|
    decreases k
  {
    if k == 0 then at
    else
      StartOf(Until(at, origin, xs[0].Meaning()), OriginAfter(at, origin, xs[0].Meaning()), xs[1..], k - 1)
  }

  /** The colour when command k starts. */
  function ColorBefore(color: Rgb, xs: seq<Instr>, k: nat): Rgb
    requires AllLegal(xs) && k <= |xs|
  {
    if k == 0 then color else LeadsTo(ColorBefore(color, xs, k - 1), xs[k - 1].Meaning())
  }

  /** No fade takes no time, nor longer than the clock can count. */
  ghost predicate ProperFades(xs: seq<Instr>)
    requires AllLegal(xs)
  {
    forall i :: 0 <= i < |xs| ==> Proper(xs[i].Meaning())
  }

  predicate Proper(c: Command) { c.FadeTo? ==> 0 < c.msec < ULONG_MODULUS }

  // ---- fades are linear ----

  lemma RampIsMix(a: Byte, b: Byte, elapsed: nat, duration: nat)
    requires elapsed < duration
    ensures Mix(a, b, ProgressInside(elapsed, duration)) == Ramp(a, b, elapsed, duration)
  {
    hide Clamp, Blend, ProgressInside, Weighted;
    BlendIsQuotient(a, b, elapsed, duration);
    ClampedQuotient(Weighted(a, b, elapsed, duration), duration);
  }

  lemma ClampedQuotient(n: nat, d: nat)
    requires d > 0 && n <= 255 * d
    ensures 0 <= n / d < 256 && Clamp(n as real / d as real) == n / d
  {
    hide Clamp;
    FloorOfQuotient(n, d);
    AtMost255(n, d);
    ClampInside(n as real / d as real);
    QuotientBelow(n, d);
  }

  lemma ClampInside(v: real)
    requires 0.0 <= v <= 255.0
    ensures Clamp(v) == v.Floor
  {
  }

  lemma AtMost255(n: nat, d: nat)
    requires d > 0 && n <= 255 * d
    ensures 0.0 <= n as real / d as real <= 255.0
  {
    var q := n as real / d as real;
    assert q * d as real == n as real;
    RealProduct(255, d);
  }

  lemma FloorOfQuotient(n: nat, d: nat)
    requires d > 0
    ensures (n as real / d as real).Floor == n / d
  {
    var q := n / d;
    assert n == q * d + n % d;
    RealProduct(q, d);
    QuotientBounds(n as real, d as real, q as real);
  }

  lemma RealProduct(q: nat, d: nat)
    ensures (q * d) as real == q as real * d as real
  {
  }

  lemma QuotientBounds(n: real, d: real, q: real)
    requires d > 0.0 && q * d <= n < q * d + d
    ensures q <= n / d < q + 1.0
  {
    var v := n / d;
    assert v * d == n;
    RealFactor(v - q, d);
    RealFactor(q + 1.0 - v, d);
  }

  lemma RealFactor(x: real, d: real)
    requires d > 0.0
    ensures x * d >= 0.0 ==> x >= 0.0
    ensures x * d > 0.0 ==> x > 0.0
  {
  }

  lemma BlendIsQuotient(a: Byte, b: Byte, elapsed: nat, duration: nat)
    requires elapsed < duration
    ensures Blend(a, b, ProgressInside(elapsed, duration))
            == Weighted(a, b, elapsed, duration) as real / duration as real
  {
    var e, d, x, y := elapsed as real, duration as real, a as real, b as real;
    AsReals(a, b, elapsed, duration);
    WeightedMean(x, y, e, d);
  }

  lemma AsReals(a: Byte, b: Byte, elapsed: nat, duration: nat)
    requires elapsed < duration
    ensures (a * (duration - elapsed) + b * elapsed) as real
            == a as real * (duration as real - elapsed as real) + b as real * elapsed as real
    ensures (b - a) as real == b as real - a as real
  {
    RealProduct(a, duration - elapsed);
    RealProduct(b, elapsed);
  }

  lemma WeightedMean(x: real, y: real, e: real, d: real)
    requires d > 0.0
    ensures x + (y - x) * (e / d) == (x * (d - e) + y * e) / d
  {
    var q := e / d;
    assert q * d == e;
    assert (x + (y - x) * q) * d == x * d + (y - x) * (q * d);
    Cancel(x + (y - x) * q, d, x * (d - e) + y * e);
  }

  lemma Cancel(v: real, d: real, w: real)
    requires d > 0.0 && v * d == w
    ensures v == w / d
  {
  }

  /** Half way through a fade every channel is the mean of its ends, rounded down. */
  lemma HalfWay(from: Byte, to: Byte, duration: nat)
    requires duration > 0
    ensures Ramp(from, to, duration, 2 * duration) == (from + to) / 2
  {
    assert Weighted(from, to, duration, 2 * duration) == (from + to) * duration;
    SameQuotient(from + to, duration);
  }

  lemma SameQuotient(x: nat, d: nat)
    requires d > 0
    ensures (x * d) / (2 * d) == x / 2
  {
    var q, r := x / 2, x % 2;
    assert x * d == q * (2 * d) + r * d && r * d < 2 * d;
    QuotientIs(x * d, 2 * d, q, r * d);
  }

  lemma QuotientIs(x: nat, d: nat, q: nat, r: nat)
    requires x == q * d + r && r < d
    ensures x / d == q
  {
    Division(x, d);
    SmallMultiple(x / d - q, d);
  }

  lemma SmallMultiple(k: int, d: nat)
    requires k * d < d && -k * d < d
    ensures k == 0
  {
    PositiveFactor(1 - k, d);
    PositiveFactor(1 + k, d);
  }

  /** A fade of some length, executed on time: what it shows at every later instant, and that it
      ends at its own colour when the next command starts. */
  lemma FadeShows(s: Show, c: Rgb, msec: nat, t: nat)
    requires Ready(s) && s.started == s.wakeup && !s.fade.active && 0 < msec < ULONG_MODULUS && t >= s.wakeup
    ensures var s' := Effect(s, FadeTo(c, msec));
            s'.wakeup == s.wakeup + msec
            && Shown(s', t) == PictureAt(s.startColor, FadeTo(c, msec), t - s.wakeup)
            && (t >= s'.wakeup ==> Shown(s', t) == c)
  {
    hide Mix, ProgressInside, Ramp;
    assert msec % ULONG_MODULUS == msec;
    MixEnds(s.startColor.red, c.red);
    MixEnds(s.startColor.green, c.green);
    MixEnds(s.startColor.blue, c.blue);
    RunningFade(s, c, msec);
    if t - s.wakeup < msec {
      RampIsMix(s.startColor.red, c.red, t - s.wakeup, msec);
      RampIsMix(s.startColor.green, c.green, t - s.wakeup, msec);
      RampIsMix(s.startColor.blue, c.blue, t - s.wakeup, msec);
    }
  }

  lemma RunningFade(s: Show, c: Rgb, msec: nat)
    requires Ready(s) && s.started == s.wakeup && !s.fade.active && 0 < msec < ULONG_MODULUS
    ensures var s' := Effect(s, FadeTo(c, msec));
            s'.fade == Fade(true, s.wakeup, msec) && s'.endColor == c && s'.startColor == s.startColor
            && s'.wakeup == s.wakeup + msec
  {
    hide Interpolate;
    assert msec % ULONG_MODULUS == msec;
    ProgressEnds(Fade(true, s.started, msec), s.started);
  }

  // ---- every command ----

  /** Whether a pyro channel is on after a command. */
  predicate ChannelAfter(on: bool, c: Command, i: nat) {
    match c
    case SetPyro(mask) => if Channel(mask, i) then mask >= 128 else on
    case SetPyroAll(channels) => Channel(channels, i)
    case _ => on
  }

  /** What a command that is executed on time shows at every later instant, when the next one
      starts, and which pyro channels it leaves on. */
  lemma CommandShows(s: Show, c: Command, t: nat)
    requires Ready(s) && s.started == s.wakeup && !s.fade.active && s.startColor == s.color
    requires Proper(c) && t >= s.wakeup
    ensures var s' := Effect(s, c);
            && s'.wakeup == Until(s.wakeup, s.origin, c) && s'.origin == OriginAfter(s.wakeup, s.origin, c)
            && Shown(s', t) == PictureAt(s.color, c, t - s.wakeup)
            && (t >= s'.wakeup ==> Shown(s', t) == LeadsTo(s.color, c))
  {
    hide UpdatePyro, StartFade, RampRgb;
    if c.FadeTo? { FadeShows(s, c.color, c.msec, t); FadeOrigin(s, c.color, c.msec); }
  }

  lemma FadeOrigin(s: Show, c: Rgb, msec: nat)
    ensures StartFade(s, c, msec).origin == s.origin && StartFade(s, c, msec).pyro == s.pyro
  {
    hide Interpolate, Progress;
  }

  lemma CommandSwitches(s: Show, c: Command, i: nat)
    requires i < 7
    ensures Channel(Effect(s, c).pyro, i) <==> ChannelAfter(Channel(s.pyro, i), c, i)
  {
    hide Channel, UpdatePyro, StartFade;
    match c
    case SetPyro(mask) => PyroMask(s.pyro, mask, i);
    case SetPyroAll(channels) => LowChannels(channels, i);
    case FadeTo(color, msec) => FadeOrigin(s, color, msec);
    case _ =>
  }

  /** The eighth bit is no channel. */
  lemma LowChannels(v: Byte, i: nat)
    requires i < 7
    ensures Channel(v % 128, i) <==> Channel(v, i)
  {
    hide Channel;
    Pow2Of7();
    hide Varint.Pow2;
    if v >= 128 { HigherBit(v - 128, 7, i); }
  }

  // ---- lists ----

  lemma {:induction false} ColorBeforeTail(color: Rgb, xs: seq<Instr>, k: nat)
    requires AllLegal(xs) && 1 <= k <= |xs|
    ensures ColorBefore(color, xs, k) == ColorBefore(LeadsTo(color, xs[0].Meaning()), xs[1..], k - 1)
    decreases k
  {
    if k > 1 {
      ColorBeforeTail(color, xs, k - 1);
      assert xs[1..][k - 2] == xs[k - 1];
    } else {
      assert ColorBefore(color, xs, 0) == color;
    }
  }

  /** Whether a pyro channel is on when command k starts. */
  predicate ChannelBefore(on: bool, xs: seq<Instr>, k: nat, i: nat)
    requires AllLegal(xs) && k <= |xs|
  {
    if k == 0 then on else ChannelAfter(ChannelBefore(on, xs, k - 1, i), xs[k - 1].Meaning(), i)
  }

  lemma {:induction false} ChannelBeforeTail(on: bool, xs: seq<Instr>, k: nat, i: nat)
    requires AllLegal(xs) && 1 <= k <= |xs|
    ensures ChannelBefore(on, xs, k, i)
            <==> ChannelBefore(ChannelAfter(on, xs[0].Meaning(), i), xs[1..], k - 1, i)
    decreases k
  {
    if k > 1 {
      ChannelBeforeTail(on, xs, k - 1, i);
      assert xs[1..][k - 2] == xs[k - 1];
    } else {
      assert ChannelBefore(on, xs, 0, i) == on;
    }
  }

  /** The first command of a list: the state that it leaves is ready for the others. */
  lemma FirstShows(s: Show, xs: seq<Instr>)
    requires Ready(s) && Continuous(s) && AllLegal(xs) && xs != [] && ProperFades(xs)
    ensures var c := xs[0].Meaning();
            var s' := Effect(Settle(s), c);
            && Ready(s') && Continuous(s') && ProperFades(xs[1..])
            && s'.wakeup == Until(s.wakeup, s.origin, c) >= s.wakeup
            && s'.origin == OriginAfter(s.wakeup, s.origin, c)
            && Shown(s', s'.wakeup) == LeadsTo(Shown(s, s.wakeup), c)
            && Settle(s).color == Shown(s, s.wakeup) && Settle(s).pyro == s.pyro
  {
    hide Continuous, Effect;
    SettleReady(s);
    SettledIsContinuous(s);
    SettlePlace(s);
    assert Proper(xs[0].Meaning());
    EffectReady(Settle(s), xs[0]);
    EffectContinuous(Settle(s), xs[0].Meaning());
    CommandShows(Settle(s), xs[0].Meaning(), Effect(Settle(s), xs[0].Meaning()).wakeup);
    forall i | 0 <= i < |xs[1..]| ensures Proper(xs[1..][i].Meaning()) { assert xs[1..][i] == xs[i + 1]; }
    hide Interpolate, Progress;
  }

  /** Every command of a list starts when the picture says so, and shows at every later instant
      what the picture shows; so it switches the pyro channels. */
  lemma {:induction false} ListShows(s: Show, xs: seq<Instr>, k: nat, t: nat)
    requires Ready(s) && Continuous(s) && AllLegal(xs) && ProperFades(xs) && k < |xs|
    requires t >= StartOf(s.wakeup, s.origin, xs, k)
    ensures |Perform(s, xs).1| == |xs|
    ensures var e, at := Perform(s, xs).1[k], StartOf(s.wakeup, s.origin, xs, k);
            && e.time == at && e.command == xs[k].Meaning()
            && e.show.wakeup == StartOf(s.wakeup, s.origin, xs, k + 1)
            && Shown(e.show, t) == PictureAt(ColorBefore(Shown(s, s.wakeup), xs, k), xs[k].Meaning(), t - at)
            && (forall i: nat :: i < 7 ==>
                  (Channel(e.show.pyro, i) <==> ChannelBefore(Channel(s.pyro, i), xs, k + 1, i)))
    decreases |xs|
  {
    hide Settle, Effect, Shown, Continuous, Ready, PictureAt, LeadsTo, ChannelAfter, Channel, Until, OriginAfter,
      Proper, ProperFades, Instr.Legal, Instr.Meaning;
    var c := xs[0].Meaning();
    var s' := Effect(Settle(s), c);
    FirstShows(s, xs);
    PerformLength(s', xs[1..]);
    FirstSwitches(s, xs);
    if k == 0 {
      FirstAt(s, xs, t);
      assert StartOf(s'.wakeup, s'.origin, xs[1..], 0) == s'.wakeup;
    } else {
      ColorBeforeTail(Shown(s, s.wakeup), xs, k);
      forall i: nat | i < 7
        ensures ChannelBefore(Channel(s.pyro, i), xs, k + 1, i) <==> ChannelBefore(Channel(s'.pyro, i), xs[1..], k, i)
      {
        ChannelBeforeTail(Channel(s.pyro, i), xs, k + 1, i);
      }
      ListShows(s', xs[1..], k - 1, t);
    }
  }

  lemma FirstAt(s: Show, xs: seq<Instr>, t: nat)
    requires Ready(s) && Continuous(s) && AllLegal(xs) && xs != [] && ProperFades(xs) && t >= s.wakeup
    ensures Shown(Effect(Settle(s), xs[0].Meaning()), t)
            == PictureAt(Shown(s, s.wakeup), xs[0].Meaning(), t - s.wakeup)
  {
    hide Continuous, Effect, Proper;
    SettleReady(s);
    SettledIsContinuous(s);
    SettlePlace(s);
    assert Proper(xs[0].Meaning());
    CommandShows(Settle(s), xs[0].Meaning(), t);
    hide Interpolate, Progress;
  }

  lemma FirstSwitches(s: Show, xs: seq<Instr>)
    requires AllLegal(xs) && xs != []
    ensures forall i: nat :: i < 7 ==>
              (Channel(Effect(Settle(s), xs[0].Meaning()).pyro, i)
               <==> ChannelAfter(Channel(s.pyro, i), xs[0].Meaning(), i))
    ensures forall i: nat :: ChannelBefore(Channel(s.pyro, i), xs, 1, i)
                             <==> ChannelAfter(Channel(s.pyro, i), xs[0].Meaning(), i)
  {
    hide Effect, Channel, Interpolate, Progress, ChannelAfter;
    forall i: nat | i < 7
      ensures Channel(Effect(Settle(s), xs[0].Meaning()).pyro, i)
              <==> ChannelAfter(Channel(s.pyro, i), xs[0].Meaning(), i)
    {
      CommandSwitches(Settle(s), xs[0].Meaning(), i);
    }
    forall i: nat
      ensures ChannelBefore(Channel(s.pyro, i), xs, 1, i)
              <==> ChannelAfter(Channel(s.pyro, i), xs[0].Meaning(), i)
    {
      assert ChannelBefore(Channel(s.pyro, i), xs, 0, i) == Channel(s.pyro, i);
    }
  }

  /** After the whole list. */
  lemma {:induction false} ListEnds(s: Show, xs: seq<Instr>)
    requires Ready(s) && Continuous(s) && AllLegal(xs) && ProperFades(xs)
    ensures var s' := Perform(s, xs).0;
            && Ready(s') && Continuous(s') && s'.wakeup == StartOf(s.wakeup, s.origin, xs, |xs|)
            && Shown(s', s'.wakeup) == ColorBefore(Shown(s, s.wakeup), xs, |xs|)
            && (forall i: nat :: i < 7 ==>
                  (Channel(s'.pyro, i) <==> ChannelBefore(Channel(s.pyro, i), xs, |xs|, i)))
    decreases |xs|
  {
    hide Settle, Effect, Shown, Continuous, Ready, LeadsTo, Until, OriginAfter, Proper, ProperFades, Instr.Legal,
      Instr.Meaning, Channel, ChannelAfter;
    if xs != [] {
      var s' := Effect(Settle(s), xs[0].Meaning());
      FirstShows(s, xs);
      FirstSwitches(s, xs);
      ListEnds(s', xs[1..]);
      ColorBeforeTail(Shown(s, s.wakeup), xs, |xs|);
      forall i: nat | i < 7
        ensures ChannelBefore(Channel(s.pyro, i), xs, |xs|, i)
                <==> ChannelBefore(Channel(s'.pyro, i), xs[1..], |xs| - 1, i)
      {
        ChannelBeforeTail(Channel(s.pyro, i), xs, |xs|, i);
      }
    }
  }

  // ---- programs ----

  /** The events of a running machine: those of the first ticks are earlier. */
  lemma {:induction false} EventsBefore(code: seq<Byte>, d: nat, t: nat)
    requires forall r: nat :: r < d ==> DueTime(code, r) < t
    ensures var es := Trace(Ticker(code), Observer(code), Boot(code, 0), d);
            forall i :: 0 <= i < |es| ==> es[i].time < t
    decreases d
  {
    hide Tick, Observe;
    if d > 0 {
      EventsBefore(code, d - 1, t);
      TraceSnoc(code, d - 1);
      assert DueTime(code, d - 1) < t;
      ObservedNow(code, Nominal(code, d - 1));
    }
  }

  lemma TraceSnoc(code: seq<Byte>, d: nat)
    ensures Trace(Ticker(code), Observer(code), Boot(code, 0), d + 1)
            == Trace(Ticker(code), Observer(code), Boot(code, 0), d) + Observe(code, Nominal(code, d))
  {
    hide Tick, Observe;
    TraceAdd(Ticker(code), Observer(code), Boot(code, 0), d, 1);
    var vm := Nominal(code, d);
    assert Trace(Ticker(code), Observer(code), Ticker(code)(vm), 0) == [];
  }

  lemma ObservedNow(code: seq<Byte>, vm: Vm)
    ensures |Observe(code, vm)| <= 1
    ensures forall i :: 0 <= i < |Observe(code, vm)| ==>
              Observe(code, vm)[i] == Event(vm.show.wakeup, Decode(code, vm.pc).0, Tick(code, vm).show)
  {
    hide Tick, Decode;
  }

  /** And those of the later ticks are not. */
  lemma {:induction false} EventsAfter(code: seq<Byte>, n: nat, m: nat)
    ensures var es := Trace(Ticker(code), Observer(code), Nominal(code, n), m);
            forall i :: 0 <= i < |es| ==> es[i].time >= DueTime(code, n)
    decreases m
  {
    hide Tick, Observe, Nominal;
    if m > 0 {
      NominalNext(code, n);
      NominalRuns(code, n);
      ObservedNow(code, Nominal(code, n));
      EventsAfter(code, n + 1, m - 1);
      assert Trace(Ticker(code), Observer(code), Nominal(code, n), m)
             == Observe(code, Nominal(code, n)) + Trace(Ticker(code), Observer(code), Nominal(code, n + 1), m - 1);
    }
  }

  /** The next command is due when the latest event says so: loop commands take no time. */
  lemma {:induction false} LatestEvent(code: seq<Byte>, d: nat)
    requires !Nominal(code, d).show.ended
    requires Trace(Ticker(code), Observer(code), Boot(code, 0), d) != []
    ensures var es := Trace(Ticker(code), Observer(code), Boot(code, 0), d);
            DueTime(code, d) == es[|es| - 1].show.wakeup
    ensures d > 0
    decreases d
  {
    hide Tick, Observe, Nominal;
    if d > 0 {
      NominalNext(code, d - 1);
      TraceSnoc(code, d - 1);
      ObservedNow(code, Nominal(code, d - 1));
      NominalMonotone(code, d - 1, d);
      if Observe(code, Nominal(code, d - 1)) == [] {
        LatestEvent(code, d - 1);
        NominalRuns(code, d - 1);
        LoopCommandTakesNoTime(code, Nominal(code, d - 1));
      }
    }
  }

  lemma LoopCommandTakesNoTime(code: seq<Byte>, vm: Vm)
    requires Ready(vm.show) && Observe(code, vm) == []
    ensures Tick(code, vm).show.wakeup == vm.show.wakeup
  {
    hide Decode, Tick, Settle;
    TickReady(code, vm);
    SettleReady(vm.show);
  }

  /** These are the bytes and the unrolled commands of a program whose fades take time. */
  ghost predicate Stores(code: seq<Byte>, p: Prog, tail: seq<Byte>, xs: seq<Instr>) {
    && p.Legal() && p.Depth() <= MAX_LOOP_DEPTH && (tail == [] || tail[0] == 0x00)
    && code == p.Bytes() + tail && xs == p.Unrolled() && AllLegal(xs) && ProperFades(xs)
  }

  /** The bytes are those of some structured program that unrolls to this list. */
  ghost predicate Codes(code: seq<Byte>, xs: seq<Instr>) {
    exists p: Prog, tail: seq<Byte> :: Stores(code, p, tail, xs)
  }

  /** The ticks of a whole structured program, up to its end. */
  lemma Whole(code: seq<Byte>, xs: seq<Instr>) returns (n: nat)
    requires AllLegal(xs) && Codes(code, xs) && |xs| > 0
    ensures !Nominal(code, n).show.ended && DueTime(code, n) == StartOf(0, 0, xs, |xs|)
    ensures Trace(Ticker(code), Observer(code), Boot(code, 0), n) == Perform(Boot(code, 0).show, xs).1
    ensures ByteAt(code, Nominal(code, n).pc) == 0x00 && Ready(Nominal(code, n).show)
    ensures Settle(Nominal(code, n).show) == Settle(Perform(Boot(code, 0).show, xs).0)
  {
    hide Tick, Observe, Perform, StartOf, ProperFades, ByteAt, Prog.Bytes, Prog.Unrolled, Prog.Ticks, Prog.Depth, Trace,
      Iterate, Throughout, At, Settle, Prog.Legal, Continuous, Ready, Boot, Room, Instr.Legal, Ticker, Observer,
      AtStart, Prog.Depth;
    var p: Prog, tail: seq<Byte> :| Stores(code, p, tail, xs);
    HasBytes(p);
    Booted(code);
    EndFollows(p.Bytes(), tail);
    n := PlayedTo(code, Boot(code, 0), p);
    BootShows(code);
    EndTime(Boot(code, 0).show, Nominal(code, n).show, xs);
    ReadyRuns(Nominal(code, n).show);
  }

  lemma ReadyRuns(s: Show)
    requires Ready(s)
    ensures !s.ended
  {
  }

  /** What playing a program comes to, without where it stops. */
  lemma PlayedTo(code: seq<Byte>, vm: Vm, p: Prog) returns (n: nat)
    requires p.Legal() && p.Depth() <= MAX_LOOP_DEPTH && AtStart(vm) && At(code, 0, p.Bytes())
    ensures AllLegal(p.Unrolled()) && Ready(Iterate(Ticker(code), vm, n).show)
    ensures Settle(Iterate(Ticker(code), vm, n).show) == Settle(Perform(vm.show, p.Unrolled()).0)
    ensures Trace(Ticker(code), Observer(code), vm, n) == Perform(vm.show, p.Unrolled()).1
    ensures Iterate(Ticker(code), vm, n).pc == |p.Bytes()|
  {
    hide Perform, Settle, Iterate, Trace, Throughout, Ticker, Observer, Roomy, Ready, At, Prog.Bytes, Prog.Unrolled,
      Prog.Ticks, Prog.Depth, Prog.Legal;
    n := p.Ticks();
    PlaysUnrolled(code, vm, p);
  }

  lemma CodesBoot(code: seq<Byte>, xs: seq<Instr>)
    requires Codes(code, xs) && |xs| > 0
    ensures Ready(Boot(code, 0).show) && Continuous(Boot(code, 0).show)
  {
    hide Prog.Bytes, Prog.Unrolled, Prog.Depth, Prog.Legal, ProperFades, Continuous, Ready, Boot, AtStart;
    var p: Prog, tail: seq<Byte> :| Stores(code, p, tail, xs);
    HasBytes(p);
    Booted(code);
  }

  lemma Booted(code: seq<Byte>)
    requires code != []
    ensures AtStart(Boot(code, 0)) && Ready(Boot(code, 0).show) && Continuous(Boot(code, 0).show)
  {
  }

  lemma EndTime(s: Show, end: Show, xs: seq<Instr>)
    requires Ready(s) && Continuous(s) && AllLegal(xs) && ProperFades(xs)
    requires Ready(end) && Settle(end) == Settle(Perform(s, xs).0)
    ensures end.wakeup == StartOf(s.wakeup, s.origin, xs, |xs|)
  {
    hide Perform, StartOf, ProperFades, Settle, Continuous, ColorBefore, Shown;
    ListEnds(s, xs);
    SettlePlace(end);
    SettlePlace(Perform(s, xs).0);
  }

  lemma HasBytes(p: Prog)
    requires p.Unrolled() != []
    ensures p.Bytes() != []
  {
  }

  lemma {:induction false} StartsGrow(at: nat, origin: nat, xs: seq<Instr>, j: nat, k: nat)
    requires AllLegal(xs) && j <= k <= |xs|
    ensures StartOf(at, origin, xs, j) <= StartOf(at, origin, xs, k)
    ensures at <= StartOf(at, origin, xs, k)
    decreases k
  {
    if k > 0 {
      var c := xs[0].Meaning();
      StartsGrow(Until(at, origin, c), OriginAfter(at, origin, c), xs[1..], if j > 0 then j - 1 else 0, k - 1);
    }
  }

  lemma BootShows(code: seq<Byte>)
    ensures var s := Boot(code, 0).show; s.wakeup == 0 && s.origin == 0 && s.pyro == 0 && Shown(s, 0) == BLACK
  {
  }

  /** When the events of a performed list happen, and what each leaves. */
  lemma EventTimes(s: Show, xs: seq<Instr>, k: nat)
    requires Ready(s) && Continuous(s) && s.wakeup == 0 && s.origin == 0
    requires AllLegal(xs) && ProperFades(xs) && k < |xs|
    ensures |Perform(s, xs).1| == |xs|
    ensures var es := Perform(s, xs).1;
            && es[k].time == StartOf(0, 0, xs, k) && es[k].show.wakeup == StartOf(0, 0, xs, k + 1)
            && (k + 1 < |xs| ==> es[k + 1].time == StartOf(0, 0, xs, k + 1))
  {
    hide Perform, StartOf, ProperFades, Continuous, Ready, Instr.Meaning, Instr.Legal;
    EventTime(s, xs, k);
    if k + 1 < |xs| { EventTime(s, xs, k + 1); }
  }

  lemma EventTime(s: Show, xs: seq<Instr>, k: nat)
    requires Ready(s) && Continuous(s) && AllLegal(xs) && ProperFades(xs) && k < |xs|
    ensures |Perform(s, xs).1| == |xs|
    ensures var e := Perform(s, xs).1[k];
            e.time == StartOf(s.wakeup, s.origin, xs, k) && e.show.wakeup == StartOf(s.wakeup, s.origin, xs, k + 1)
  {
    hide Perform, StartOf, ProperFades, Shown, PictureAt, Continuous, Ready, ColorBefore, ChannelBefore, Channel;
    ListShows(s, xs, k, StartOf(s.wakeup, s.origin, xs, k));
  }

  /** Between the starts of two consecutive commands of the unrolled list the nominal machine has
      just executed the first of them. */
  lemma BetweenCommands(code: seq<Byte>, xs: seq<Instr>, k: nat, t: nat) returns (d: nat)
    requires AllLegal(xs) && Codes(code, xs) && k < |xs| && ProperFades(xs)
    requires StartOf(0, 0, xs, k) < t < StartOf(0, 0, xs, k + 1)
    ensures Ready(Boot(code, 0).show) && Continuous(Boot(code, 0).show)
    ensures IsDueIndex(code, t, d) && !Nominal(code, d).show.ended && DueTime(code, d) == StartOf(0, 0, xs, k + 1)
    ensures |Perform(Boot(code, 0).show, xs).1| > k
    ensures Nominal(code, d).show == Perform(Boot(code, 0).show, xs).1[k].show
  {
    hide Tick, Observe, Nominal, Perform, StartOf, ProperFades, Prog.Bytes, Prog.Unrolled, Prog.Ticks, Prog.Depth,
      Trace, Ready, Continuous, Prog.Legal, IsDueIndex, Boot;
    CodesBoot(code, xs);
    var n := Whole(code, xs);
    BootShows(code);
    EventTimes(Boot(code, 0).show, xs, k);
    StartsGrow(0, 0, xs, k + 1, |xs|);
    d := DueIndexExists(code, t, n);
    DueBefore(code, t, d, n);
    CountEvents(code, xs, k, t, d, n);
    LatestTick(code, d, t);
  }

  lemma DueBefore(code: seq<Byte>, t: nat, d: nat, n: nat)
    requires IsDueIndex(code, t, d) && !Nominal(code, n).show.ended && DueTime(code, n) >= t
    ensures d <= n && !Nominal(code, d).show.ended && DueTime(code, d) >= t
  {
    hide Nominal, DueTime;
    if d <= n { NominalMonotone(code, d, n); }
  }

  /** The events before the tick due at `t` are those of the commands that have started. */
  lemma CountEvents(code: seq<Byte>, xs: seq<Instr>, k: nat, t: nat, d: nat, n: nat)
    requires AllLegal(xs) && k < |xs| && d <= n && IsDueIndex(code, t, d) && DueTime(code, d) >= t
    requires var es := Trace(Ticker(code), Observer(code), Boot(code, 0), n);
             |es| == |xs| && es[k].time < t && (k + 1 < |xs| ==> es[k + 1].time > t)
    ensures var es := Trace(Ticker(code), Observer(code), Boot(code, 0), n);
            Trace(Ticker(code), Observer(code), Boot(code, 0), d) == es[..k + 1]
  {
    hide Tick, Observe, Trace, Ticker, Observer, Boot, Iterate;
    var es, before := Trace(Ticker(code), Observer(code), Boot(code, 0), n),
                      Trace(Ticker(code), Observer(code), Boot(code, 0), d);
    TraceAdd(Ticker(code), Observer(code), Boot(code, 0), d, n - d);
    EventsBefore(code, d, t);
    EventsAfter(code, d, n - d);
    var after := Trace(Ticker(code), Observer(code), Nominal(code, d), n - d);
    assert es == before + after;
    assert forall i :: |before| <= i < |es| ==> es[i] == after[i - |before|];
    assert forall i :: 0 <= i < |before| ==> es[i] == before[i];
    assert |before| == k + 1;
  }

  /** If no command is due before `t` at the time that the latest event gives, that event is the
      latest tick. */
  lemma LatestTick(code: seq<Byte>, d: nat, t: nat)
    requires IsDueIndex(code, t, d) && !Nominal(code, d).show.ended
    requires var es := Trace(Ticker(code), Observer(code), Boot(code, 0), d);
             es != [] && es[|es| - 1].show.wakeup > t
    ensures var es := Trace(Ticker(code), Observer(code), Boot(code, 0), d);
            DueTime(code, d) == es[|es| - 1].show.wakeup && Nominal(code, d).show == es[|es| - 1].show
  {
    hide Tick, Observe, Trace, Nominal, Boot;
    LatestEvent(code, d);
    TraceSnoc(code, d - 1);
    ObservedNow(code, Nominal(code, d - 1));
    NominalNext(code, d - 1);
    assert DueTime(code, d - 1) < t;
    if Observe(code, Nominal(code, d - 1)) == [] {
      NominalMonotone(code, d - 1, d);
      LatestEvent(code, d - 1);
    }
  }

  /** The whole way from the bytes to the colour: between the starts of two consecutive commands of
      the unrolled list, a seek of a player shows what the picture of the list shows, whatever was
      sought before; and so for the pyro channels. */
  lemma SeekShowsPicture(code: seq<Byte>, xs: seq<Instr>, q: Player, n: nat, k: nat, t: nat)
    requires AllLegal(xs) && ProperFades(xs) && Codes(code, xs) && k < |xs|
    requires StartOf(0, 0, xs, k) < t < StartOf(0, 0, xs, k + 1)
    requires Located(code, q, n)
    ensures var shown := Seen(Seek(code, q, t).vm);
            && shown.color == PictureAt(ColorBefore(BLACK, xs, k), xs[k].Meaning(), t - StartOf(0, 0, xs, k))
            && (forall i: nat :: i < 7 ==> (Channel(shown.pyro, i) <==> ChannelBefore(false, xs, k + 1, i)))
            && !shown.ended && shown.next == StartOf(0, 0, xs, k + 1)
  {
    hide Tick, Observe, Nominal, Perform, StartOf, ProperFades, Prog.Bytes, Prog.Unrolled, Prog.Ticks, Prog.Depth,
      Trace, Ready, Continuous, Prog.Legal, IsDueIndex, Boot, Located, Seek, PictureAt, ColorBefore, ChannelBefore,
      Channel, Step, Live, AlwaysRoom, SeeksReturn;
    var d := BetweenCommands(code, xs, k, t);
    CodesAreLive(code, xs);
    SeekAnswer(code, q, n, t, d);
    NominalRuns(code, d);
    StepBefore(code, Nominal(code, d), t);
    FadeKeepsSchedule(Nominal(code, d).show, t);
    BootShows(code);
    NoChannels();
    ListShows(Boot(code, 0).show, xs, k, t);
  }

  /** The tick that ends a whole program. */
  lemma Finished(code: seq<Byte>, xs: seq<Instr>) returns (n: nat)
    requires AllLegal(xs) && Codes(code, xs) && ProperFades(xs) && xs != []
    ensures !Nominal(code, n).show.ended && DueTime(code, n) == StartOf(0, 0, xs, |xs|)
    ensures var s := Nominal(code, n + 1).show;
            && s.ended && s.color == ColorBefore(BLACK, xs, |xs|)
            && (forall i: nat :: i < 7 ==> (Channel(s.pyro, i) <==> ChannelBefore(false, xs, |xs|, i)))
  {
    hide Tick, Perform, StartOf, ProperFades, Nominal, Boot, Codes, Settle, Continuous, ByteAt, Trace, ColorBefore,
      ChannelBefore, Channel, Instr.Legal, Ready;
    n := Whole(code, xs);
    CodesBoot(code, xs);
    BootShows(code);
    NoChannels();
    ListEnds(Boot(code, 0).show, xs);
    NominalNext(code, n);
    TickEnds(code, Nominal(code, n));
    SettledShows(Perform(Boot(code, 0).show, xs).0);
  }

  lemma TickEnds(code: seq<Byte>, vm: Vm)
    requires Ready(vm.show) && ByteAt(code, vm.pc) == 0x00
    ensures Tick(code, vm).show == Settle(vm.show).(ended := true)
  {
    hide Tick, Settle, ReadVarint, ReadColor;
    TickReady(code, vm);
  }

  lemma SettledShows(s: Show)
    ensures Settle(s).color == Shown(s, s.wakeup) && Settle(s).pyro == s.pyro
  {
    hide Interpolate, Progress;
  }

  /** After the last command of the unrolled list is over, a seek shows the colour that the list
      leads to, and the pyro channels that it leaves on, for ever; the program has ended, and the next
      look at it is a minute later. */
  lemma SeekAfterTheEnd(code: seq<Byte>, xs: seq<Instr>, q: Player, n: nat, t: nat)
    requires AllLegal(xs) && ProperFades(xs) && Codes(code, xs) && xs != []
    requires t > StartOf(0, 0, xs, |xs|) && Located(code, q, n)
    ensures var shown := Seen(Seek(code, q, t).vm);
            && shown.color == ColorBefore(BLACK, xs, |xs|)
            && (forall i: nat :: i < 7 ==> (Channel(shown.pyro, i) <==> ChannelBefore(false, xs, |xs|, i)))
            && shown.ended && shown.next == t + 60000
  {
    hide Tick, StartOf, ProperFades, Nominal, Codes, ColorBefore, ChannelBefore, Channel, Instr.Legal, Located, Seek,
      Live, Step;
    var last := Finished(code, xs);
    forall k: nat | k < last + 1 ensures !Nominal(code, k).show.ended && DueTime(code, k) < t {
      NominalMonotone(code, k, last);
    }
    CodesAreLive(code, xs);
    SeekAnswer(code, q, n, t, last + 1);
    EndedGlance(code, last + 1, t);
  }

  lemma CodesAreLive(code: seq<Byte>, xs: seq<Instr>)
    requires Codes(code, xs)
    ensures Live(code)
  {
    hide Prog.Bytes, Prog.Unrolled, Prog.Depth, Prog.Legal, Live, AlwaysRoom, SeeksReturn, ProperFades;
    var p: Prog, tail: seq<Byte> :| Stores(code, p, tail, xs);
    StructuredIsLive(p, tail);
  }

  lemma NoChannels()
    ensures forall i: nat :: !Channel(0, i)
  {
    forall i: nat ensures !Channel(0, i) { NoChannel(i); }
  }

  lemma {:induction false} NoChannel(i: nat)
    ensures !Channel(0, i)
    decreases i
  {
    if i > 0 { NoChannel(i - 1); }
  }

  // ---- a fade from black to red, and then a rest ----

  const RED := Rgb(255, 0, 0)

  const RED_FADE := Do(Timed(0x08, [255, 0, 0], 50), Do(Timed(0x02, [], 50), Stop))

  lemma RedFadeStored()
    ensures var xs := [Timed(0x08, [255, 0, 0], 50), Timed(0x02, [], 50)];
            AllLegal(xs) && ProperFades(xs) && Codes([0x08, 255, 0, 0, 50, 0x02, 50], xs)
            && xs[0].Meaning() == FadeTo(RED, 1000) && xs[1].Meaning() == Sleep(1000)
  {
    var first, second := Timed(0x08, [255, 0, 0], 50), Timed(0x02, [], 50);
    assert Varint.Encode(50) == [50];
    assert first.Bytes() == [0x08, 255, 0, 0, 50] && second.Bytes() == [0x02, 50];
    var rest := Do(second, Stop);
    assert rest.Bytes() == [0x02, 50] && rest.Unrolled() == [second];
    assert RED_FADE.Bytes() == [0x08, 255, 0, 0, 50] + [0x02, 50];
    assert RED_FADE.Unrolled() == [first] + [second];
    assert Stores([0x08, 255, 0, 0, 50, 0x02, 50], RED_FADE, [], [first, second]);
  }

  lemma RedFadeTimes()
    ensures var xs := [Timed(0x08, [255, 0, 0], 50), Timed(0x02, [], 50)];
            AllLegal(xs) && StartOf(0, 0, xs, 0) == 0 && StartOf(0, 0, xs, 1) == 1000 && StartOf(0, 0, xs, 2) == 2000
            && ColorBefore(BLACK, xs, 0) == BLACK && ColorBefore(BLACK, xs, 1) == RED
  {
    RedFadeStored();
    var xs := [Timed(0x08, [255, 0, 0], 50), Timed(0x02, [], 50)];
    assert xs[1..] == [xs[1]] && xs[1..][1..] == [];
    assert StartOf(1000, 0, xs[1..], 0) == 1000;
    assert StartOf(2000, 0, xs[1..][1..], 0) == 2000;
    assert StartOf(1000, 0, xs[1..], 1) == 2000;
    assert ColorBefore(BLACK, xs, 0) == BLACK;
  }

  /** Half way through the fade a seek shows half red, and after it red, whatever was sought before. */
  lemma RedFadeShows(q: Player, n: nat)
    requires Located([0x08, 255, 0, 0, 50, 0x02, 50], q, n)
    ensures Seen(Seek([0x08, 255, 0, 0, 50, 0x02, 50], q, 500).vm).color == Rgb(127, 0, 0)
    ensures Seen(Seek([0x08, 255, 0, 0, 50, 0x02, 50], q, 1500).vm).color == RED
  {
    hide Located, Seek, Codes, ProperFades, StartOf, ColorBefore, Instr.Meaning, Ramp, ChannelBefore;
    var code: seq<Byte> := [0x08, 255, 0, 0, 50, 0x02, 50];
    var xs := [Timed(0x08, [255, 0, 0], 50), Timed(0x02, [], 50)];
    RedFadeStored();
    RedFadeTimes();
    HalfWay(0, 255, 500);
    HalfWay(0, 0, 500);
    SeekShowsPicture(code, xs, q, n, 0, 500);
    SeekShowsPicture(code, xs, q, n, 1, 1500);
  }

  // ---- jumps, and what ends a program ----

  /** A jump goes on at its address with no loop open; an address that is too large ends the program. */
  lemma JumpGoes(code: seq<Byte>, vm: Vm, address: nat)
    requires Ready(vm.show) && At(code, vm.pc, [0x12] + Varint.Encode(address))
    ensures var vm' := Tick(code, vm);
            vm'.show == Settle(vm.show).(ended := address >= 0x7FFF_FFFF)
            && (address < 0x7FFF_FFFF ==> vm'.pc == address && vm'.loops == [])
  {
    hide Varint.Encode, ReadVarint, Tick, Settle;
    TickReady(code, vm);
    SettleReady(vm.show);
    AtSplit(code, vm.pc, [0x12], Varint.Encode(address));
    AtBound(code, vm.pc, [0x12]);
    ReadVarintAt(code, vm.pc + 1, address);
  }

  /** The end of a loop that was never begun is passed over. */
  lemma StrayLoopEndPasses(code: seq<Byte>, vm: Vm)
    requires Ready(vm.show) && At(code, vm.pc, [0x0D]) && vm.loops == []
    ensures Tick(code, vm) == Vm(vm.pc + 1, [], Settle(vm.show))
  {
    hide Tick, Settle;
    TickReady(code, vm);
    AtIndex(code, vm.pc, [0x0D], 0);
    assert Decode(code, vm.pc) == (LoopEnd, vm.pc + 1);
  }

  /** Without a signal source a triggered jump that waits for an edge is passed over. */
  lemma TriggeredJumpPasses(code: seq<Byte>, vm: Vm, params: Byte, address: nat)
    requires Ready(vm.show) && At(code, vm.pc, [0x13, params] + Varint.Encode(address))
    requires params / 16 % 4 != 0
    ensures var vm' := Tick(code, vm);
            vm'.pc == vm.pc + 2 + |Varint.Encode(address)| && vm'.loops == vm.loops
            && vm'.show == Settle(vm.show).(ended := address >= 0x7FFF_FFFF)
  {
    hide Varint.Encode, ReadVarint, Tick, Settle;
    TickReady(code, vm);
    SettleReady(vm.show);
    AtSplit(code, vm.pc, [0x13, params], Varint.Encode(address));
    AtIndex(code, vm.pc, [0x13, params], 0);
    AtIndex(code, vm.pc, [0x13, params], 1);
    ReadVarintAt(code, vm.pc + 2, address);
  }

  /** Every opcode that is none of the commands ends the program, as the END command does. */
  lemma OtherOpcodesEnd(code: seq<Byte>, vm: Vm)
    requires Ready(vm.show) && vm.pc < |code| && (code[vm.pc] == 0x00 || code[vm.pc] == 0x0F || code[vm.pc] >= 0x16)
    ensures Tick(code, vm).show == Settle(vm.show).(ended := true)
  {
    hide ReadVarint, Tick, Settle, ReadColor, ReadTriggeredJump;
    TickReady(code, vm);
  }
}
