// Fades: continuous, monotone in every channel, and over exactly when the next command starts.
module LightFade {
  import opened Basics
  import opened Iteration
  import opened LightVm
  import opened LightProgram
  import opened LightSchedule
  import Varint

  /** The colour shown at `t`, between the last step and the next command. */
  function Shown(s: Show, t: nat): Rgb { StepFade(s, t).color }

  // ---- one channel ----

  lemma MixEnds(a: Byte, b: Byte)
    ensures Mix(a, b, 0.0) == a && Mix(a, b, 1.0) == b
  {
  }

  lemma ClampMonotone(v: real, w: real)
    requires v <= w
    ensures Clamp(v) <= Clamp(w)
  {
  }

  lemma BlendMonotone(a: Byte, b: Byte, p: real, q: real)
    requires p <= q
    ensures a <= b ==> Blend(a, b, p) <= Blend(a, b, q)
    ensures a >= b ==> Blend(a, b, p) >= Blend(a, b, q)
  {
    var d := (b - a) as real;
    if a <= b {
      assert d * (q - p) >= 0.0;
    }
    if a >= b {
      assert -d * (q - p) >= 0.0;
    }
  }

  /** A channel moves in one direction only. */
  lemma MixMonotone(a: Byte, b: Byte, p: real, q: real)
    requires p <= q
    ensures a <= b ==> Mix(a, b, p) <= Mix(a, b, q)
    ensures a >= b ==> Mix(a, b, p) >= Mix(a, b, q)
  {
    hide Clamp, Blend;
    BlendMonotone(a, b, p, q);
    if a <= b { ClampMonotone(Blend(a, b, p), Blend(a, b, q)); }
    if a >= b { ClampMonotone(Blend(a, b, q), Blend(a, b, p)); }
  }

  lemma MixBetween(a: Byte, b: Byte, p: real, q: real)
    requires 0.0 <= p <= q <= 1.0
    ensures Between(a, Mix(a, b, p), Mix(a, b, q), b)
  {
    hide Mix;
    MixEnds(a, b);
    MixMonotone(a, b, 0.0, p);
    MixMonotone(a, b, p, q);
    MixMonotone(a, b, q, 1.0);
  }

  lemma ProgressMonotone(f: Fade, t: nat, u: nat)
    requires t <= u
    ensures Progress(f, t) <= Progress(f, u)
  {
    if f.start <= t && u - f.start < f.duration {
      var x, y, d := (t - f.start) as real, (u - f.start) as real, f.duration as real;
      assert (y - x) / d >= 0.0;
      assert y / d - x / d == (y - x) / d;
    }
  }

  /** x <= y between a and b, whichever way the fade goes. */
  predicate Between(a: Byte, x: Byte, y: Byte, b: Byte) {
    (a <= x <= y <= b) || (a >= x >= y >= b)
  }

  /** During a fade every channel moves monotonically from the start colour to the end
      colour, begins at the one and reaches the other exactly. */
  lemma FadeMonotone(s: Show, t: nat, u: nat)
    requires s.fade.active && s.fade.start <= t <= u && s.fade.duration > 0
    ensures Between(s.startColor.red, Shown(s, t).red, Shown(s, u).red, s.endColor.red)
    ensures Between(s.startColor.green, Shown(s, t).green, Shown(s, u).green, s.endColor.green)
    ensures Between(s.startColor.blue, Shown(s, t).blue, Shown(s, u).blue, s.endColor.blue)
    ensures Shown(s, s.fade.start) == s.startColor
    ensures u >= s.fade.start + s.fade.duration ==> Shown(s, u) == s.endColor
  {
    hide Mix, Progress;
    ProgressMonotone(s.fade, t, u);
    var p, q := Progress(s.fade, t), Progress(s.fade, u);
    MixBetween(s.startColor.red, s.endColor.red, p, q);
    MixBetween(s.startColor.green, s.endColor.green, p, q);
    MixBetween(s.startColor.blue, s.endColor.blue, p, q);
    ProgressEnds(s.fade, u);
    MixEnds(s.startColor.red, s.endColor.red);
    MixEnds(s.startColor.green, s.endColor.green);
    MixEnds(s.startColor.blue, s.endColor.blue);
  }

  lemma ProgressEnds(f: Fade, u: nat)
    requires f.duration > 0
    ensures Progress(f, f.start) == 0.0
    ensures u >= f.start + f.duration ==> Progress(f, u) == 1.0
    ensures u < f.start + f.duration ==> Progress(f, u) < 1.0
  {
  }

  // ---- runs ----

  /** Between commands: an active fade started at the last command and ends exactly at the
      next; otherwise the next fade would start from the colour that is shown. */
  predicate Continuous(s: Show) {
    if s.fade.active then
      s.fade.duration > 0 && s.fade.start + s.fade.duration == s.wakeup && s.started == s.fade.start
      && s.color == s.startColor
    else s.startColor == s.color
  }

  /** The command about to be executed does not fade in no time at all (nor for longer than
      the clock can count). */
  predicate ProperFade(code: seq<Byte>, vm: Vm) {
    match Decode(code, vm.pc).0
    case FadeTo(_, msec) => 0 < msec < ULONG_MODULUS
    case _ => true
  }

  function ProperlyRunning(code: seq<Byte>): Vm -> bool {
    (vm: Vm) => !vm.show.ended && ProperFade(code, vm)
  }

  /** When a command is about to be executed no fade is active, and the colour shown is both
      the one that the last fade led to and the one that the next would start from. */
  lemma SettledIsContinuous(s: Show)
    requires Ready(s) && Continuous(s)
    ensures var s' := Settle(s);
            !s'.fade.active && s'.startColor == s'.color
            && s'.color == (if s.fade.active then s.endColor else s.color)
  {
    ProgressEnds(Fade(true, s.fade.start, if s.fade.duration > 0 then s.fade.duration else 1), s.wakeup);
    MixEnds(s.startColor.red, s.endColor.red);
    MixEnds(s.startColor.green, s.endColor.green);
    MixEnds(s.startColor.blue, s.endColor.blue);
  }

  lemma EffectContinuous(s: Show, c: Command)
    requires Ready(s) && s.started == s.wakeup && !s.fade.active && s.startColor == s.color
    requires c.FadeTo? ==> 0 < c.msec < ULONG_MODULUS
    ensures Continuous(Effect(s, c))
  {
    if c.FadeTo? {
      assert DelayBy(s, c.msec).wakeup == s.wakeup + c.msec;
      assert c.msec % ULONG_MODULUS == c.msec;
      ProgressEnds(Fade(true, s.started, c.msec), s.started);
      MixEnds(s.startColor.red, c.color.red);
      MixEnds(s.startColor.green, c.color.green);
      MixEnds(s.startColor.blue, c.color.blue);
    }
  }

  lemma TickContinuous(code: seq<Byte>, vm: Vm)
    requires Ready(vm.show) && Continuous(vm.show) && ProperFade(code, vm)
    ensures Continuous(Tick(code, vm).show)
  {
    TickReady(code, vm);
    SettleReady(vm.show);
    SettledIsContinuous(vm.show);
    EffectContinuous(Settle(vm.show), Decode(code, vm.pc).0);
  }

  /** Every run on the machine's own schedule whose fades take time is continuous after
      every command, up to the end of the program. */
  lemma {:induction false} RunContinuous(code: seq<Byte>, vm: Vm, n: nat)
    requires Ready(vm.show) && Continuous(vm.show)
    requires Throughout(Ticker(code), ProperlyRunning(code), vm, n)
    ensures Continuous(Iterate(Ticker(code), vm, n).show)
    decreases n
  {
    if n > 0 {
      hide Tick, Ready, Continuous, ProperFade;
      var vm' := Ticker(code)(vm);
      assert vm' == Tick(code, vm) && ProperlyRunning(code)(vm);
      TickContinuous(code, vm);
      TickReadyAgain(code, vm);
      if n > 1 {
        assert ProperlyRunning(code)(vm');
        RunContinuous(code, vm', n - 1);
      } else {
        assert Iterate(Ticker(code), vm', 0) == vm';
      }
    }
  }

  // ---- where the code departs from this ----

  /** A fade of no duration shows its colour at once, yet the next fade starts from where
      this one started: the run stays continuous exactly if there was nothing to fade. */
  lemma InstantFade(s: Show, c: Rgb)
    requires Ready(s) && s.started == s.wakeup && !s.fade.active
    ensures var s' := Effect(s, FadeTo(c, 0));
            s'.color == c && !s'.fade.active
            && (Continuous(s') <==> s.startColor == c)
  {
    MixEnds(s.startColor.red, c.red);
    MixEnds(s.startColor.green, c.green);
    MixEnds(s.startColor.blue, c.blue);
  }

  /** Executed late, a fade still ends at the next wakeup time exactly if that time has not
      passed; otherwise its length wraps around the clock. */
  lemma LateFade(s: Show, c: Rgb, msec: nat)
    requires s.started < ULONG_MODULUS && DelayBy(s, msec).wakeup < ULONG_MODULUS
    ensures var s' := Effect(s, FadeTo(c, msec));
            s'.fade.start + s'.fade.duration == s'.wakeup <==> s.started <= s'.wakeup
  {
    var w := DelayBy(s, msec).wakeup;
    if w < s.started {
      assert (w - s.started) % ULONG_MODULUS == w - s.started + ULONG_MODULUS;
    }
  }

  /** A fade to white in no time, then a fade to white in 100 ms: the first shows white, and
      the second begins at black. */
  lemma InstantFadeDeparts()
    ensures var code := [0x0B, 0, 0x0B, 5];
            Nominal(code, 1).show.color == WHITE && Nominal(code, 2).show.color == BLACK
            && Nominal(code, 2).show.fade.active
  {
    hide Tick, Settle, Effect;
    var code := [0x0B, 0, 0x0B, 5];
    var vm := Boot(code, 0);
    IterateSucc(Ticker(code), vm, 0);
    IterateSucc(Ticker(code), vm, 1);
    TickFade(code, vm, 0);
    TickFade(code, Tick(code, vm), 5);
  }

  lemma TickFade(code: seq<Byte>, vm: Vm, units: nat)
    requires vm.pc + 1 < |code| && code[vm.pc] == 0x0B && code[vm.pc + 1] == units < 128
    requires Ready(vm.show) && !vm.show.fade.active
    ensures var vm' := Tick(code, vm);
            && Ready(vm'.show) && vm'.pc == vm.pc + 2 && vm'.show.startColor == vm.show.startColor
            && vm'.show.color == (if units == 0 then WHITE else vm.show.startColor)
            && vm'.show.fade.active == (units > 0)
  {
    hide Decode, Tick, Settle, Effect, Ready;
    DecodeWhite(code, vm.pc, units);
    TickReady(code, vm);
    FadeBegins(vm.show, WHITE, units * 20);
  }

  /** A fade of some length shows its start colour first; one of no length its end colour. */
  lemma FadeBegins(s: Show, c: Rgb, msec: nat)
    requires Ready(s) && !s.fade.active && msec < ULONG_MODULUS
    ensures var s' := Effect(Settle(s), FadeTo(c, msec));
            && Ready(s') && s'.startColor == s.startColor
            && s'.color == (if msec == 0 then c else s.startColor)
            && s'.fade.active == (msec > 0)
  {
    hide Interpolate;
    EndsOfFade(s.startColor, c);
    assert msec % ULONG_MODULUS == msec;
  }

  lemma EndsOfFade(a: Rgb, b: Rgb)
    ensures Interpolate(a, b, 0.0) == a && Interpolate(a, b, 1.0) == b
  {
    hide Mix;
    MixEnds(a.red, b.red);
    MixEnds(a.green, b.green);
    MixEnds(a.blue, b.blue);
  }

  lemma DecodeWhite(code: seq<Byte>, pc: nat, units: nat)
    requires pc + 1 < |code| && code[pc] == 0x0B && code[pc + 1] == units < 128
    ensures Decode(code, pc) == (FadeTo(WHITE, units * 20), pc + 2)
  {
    assert Varint.End(code, pc + 1) == pc + 1;
    assert code[pc + 1..pc + 2] == [code[pc + 1]];
    assert Varint.Value([code[pc + 1]]) == code[pc + 1];
    assert ReadVarint(code, pc + 1) == (code[pc + 1], pc + 2);
  }

  /** Executed 100 ms late, a fade of 20 ms is given nearly the whole range of the clock. */
  lemma LateFadeDeparts()
    ensures var code := [0x0B, 1];
            var s := Step(code, Boot(code, 0), 100).show;
            s.fade == Fade(true, 100, ULONG_MODULUS - 80) && s.wakeup == 20
  {
    hide Decode, Interpolate;
    var code := [0x0B, 1];
    DecodeWhite(code, 0, 1);
    assert (20 - 100) % ULONG_MODULUS == ULONG_MODULUS - 80;
  }
}
