// When commands start: late steps do not accumulate into drift.
module LightSchedule {
  import opened Basics
  import opened Iteration
  import opened LightVm
  import opened LightProgram

  /** A machine that has just been given its clock at time `t`. */
  function Boot(code: seq<Byte>, t: nat): Vm {
    Vm(0, [], Show(|code| == 0, false, t, 0, t, 0, BLACK, 0, Fade(false, 0, 0), BLACK, BLACK))
  }

  /** The machine after `k` commands on its own schedule from time zero: it depends on the
      program alone. */
  function Nominal(code: seq<Byte>, k: nat): Vm { Iterate(Ticker(code), Boot(code, 0), k) }

  /** The steps at the given times, one after the other. */
  function StepAll(code: seq<Byte>, vm: Vm, times: seq<nat>): Vm
    decreases |times|
  {
    if times == [] then vm else StepAll(code, Step(code, vm, times[0]), times[1..])
  }

  predicate Due(vm: Vm, now: nat) { !vm.show.ended && now >= vm.show.wakeup }

  /** How many commands those steps execute. */
  function Executed(code: seq<Byte>, vm: Vm, times: seq<nat>): nat
    decreases |times|
  {
    if times == [] then 0
    else (if Due(vm, times[0]) then 1 else 0) + Executed(code, Step(code, vm, times[0]), times[1..])
  }

  /** `vm` stands where the nominal machine `n` stands, its schedule shifted by `t`. */
  predicate Follows(vm: Vm, n: Vm, t: nat) {
    && vm.pc == n.pc && vm.loops == n.loops && vm.show.pyro == n.show.pyro
    && vm.show.ended == n.show.ended && !vm.show.resetPending && !n.show.resetPending
    && vm.show.elapsed == n.show.elapsed
    && n.show.origin == 0 && vm.show.origin == t
    && (!n.show.ended ==> n.show.wakeup == n.show.elapsed && vm.show.wakeup == t + n.show.wakeup)
  }

  /** Before the program ends no command resets the clock. */
  ghost predicate NoClockReset(code: seq<Byte>) {
    forall k: nat :: !Nominal(code, k).show.ended ==> !Decode(code, Nominal(code, k).pc).0.ResetClock?
  }

  lemma FollowEffect(a: Show, b: Show, c: Command, t: nat)
    requires !c.ResetClock? && !a.ended && !b.ended
    requires a.elapsed == b.elapsed && a.pyro == b.pyro && b.origin == 0 && a.origin == t
    requires b.wakeup == b.elapsed && a.wakeup == t + b.wakeup
    ensures var a', b' := Effect(a, c), Effect(b, c);
            a'.elapsed == b'.elapsed && a'.pyro == b'.pyro && b'.origin == 0 && a'.origin == t
            && b'.wakeup == b'.elapsed && a'.wakeup == t + b'.wakeup && a'.ended == b'.ended
            && a'.resetPending == a.resetPending && b'.resetPending == b.resetPending
  {
  }

  /** A step, however late, either leaves the position in the program alone or moves it one
      nominal command ahead. */
  lemma FollowStep(code: seq<Byte>, vm: Vm, n: Vm, t: nat, now: nat)
    requires Follows(vm, n, t) && (n.show.ended || !Decode(code, n.pc).0.ResetClock?)
    ensures Follows(Step(code, vm, now), if Due(vm, now) then Tick(code, n) else n, t)
  {
    hide Decode, Interpolate, Progress;
    var c := Decode(code, vm.pc).0;
    if Due(vm, now) {
      FollowEffect(StepFade(vm.show, now).(started := now), Settle(n.show), c, t);
    }
  }

  /** No drift: for every sequence of step times, however late, the position in the program
      and the time consumed depend only on the number of commands executed, and the next
      wakeup time is the clock origin plus the nominal one. */
  lemma {:induction false} NoDrift(code: seq<Byte>, vm: Vm, k: nat, t: nat, times: seq<nat>)
    requires NoClockReset(code) && Follows(vm, Nominal(code, k), t)
    ensures Follows(StepAll(code, vm, times), Nominal(code, k + Executed(code, vm, times)), t)
    decreases |times|
  {
    hide Step, Tick, Decode, Follows, Due;
    if times != [] {
      FollowStep(code, vm, Nominal(code, k), t, times[0]);
      IterateSucc(Ticker(code), Boot(code, 0), k);
      var k' := k + if Due(vm, times[0]) then 1 else 0;
      NoDrift(code, Step(code, vm, times[0]), k', t, times[1..]);
    }
  }

  /** The first step after a rewind sets the clock: the run follows the nominal one from the
      time of that step. */
  lemma NoDriftFromRewind(code: seq<Byte>, vm: Vm, first: nat, times: seq<nat>)
    requires NoClockReset(code)
    ensures var start := Rewind(code, vm);
            var k := Executed(code, start.(show := ApplyReset(start.show, first)), [first] + times);
            Follows(StepAll(code, start, [first] + times), Nominal(code, k), first)
  {
    var start := Rewind(code, vm);
    var booted := start.(show := ApplyReset(start.show, first));
    assert Follows(booted, Nominal(code, 0), first);
    assert Step(code, start, first) == Step(code, booted, first);
    assert ([first] + times)[1..] == times;
    NoDrift(code, booted, 0, first, [first] + times);
  }

  /** Until the program ends the wakeup time never decreases, clock resets or not. */
  lemma {:induction false} WakeupMonotone(code: seq<Byte>, vm: Vm, times: seq<nat>)
    requires !vm.show.resetPending && !StepAll(code, vm, times).show.ended
    ensures StepAll(code, vm, times).show.wakeup >= vm.show.wakeup
    ensures !vm.show.ended
    decreases |times|
  {
    if times != [] {
      StepMonotone(code, vm, times[0]);
      WakeupMonotone(code, Step(code, vm, times[0]), times[1..]);
    }
  }

  lemma StepMonotone(code: seq<Byte>, vm: Vm, now: nat)
    requires !vm.show.resetPending
    ensures vm.show.ended ==> Step(code, vm, now).show.ended
    ensures !vm.show.ended ==> Step(code, vm, now).show.wakeup >= vm.show.wakeup
    ensures !Step(code, vm, now).show.resetPending
  {
    hide Decode, Interpolate, Progress, UpdatePyro, Control;
  }

  /** A clock reset keeps "wakeup = origin + elapsed" exactly when it is executed on time. */
  lemma ClockResetOnTime(code: seq<Byte>, vm: Vm, now: nat)
    requires !vm.show.resetPending && Due(vm, now) && Decode(code, vm.pc).0 == ResetClock
    ensures var s := Step(code, vm, now).show;
            s.wakeup == s.origin + s.elapsed <==> now == vm.show.wakeup
  {
  }

  /** A clock reset that is due at time zero and executed 10 ms late loses those 10 ms: the next
      command is due at once, while the clock says that it is due 10 ms later. */
  lemma ClockResetDeparts()
    ensures var s := Step([0x0E], Boot([0x0E], 0), 10).show;
            s.wakeup == 0 && s.origin + s.elapsed == 10
  {
  }

  /** On the machine's own schedule the equation holds after every command, clock resets
      included, and the wakeup time never decreases. */
  lemma TickReadyAgain(code: seq<Byte>, vm: Vm)
    requires Ready(vm.show)
    ensures Tick(code, vm).show.wakeup >= vm.show.wakeup
    ensures !Tick(code, vm).show.ended ==> Ready(Tick(code, vm).show)
    ensures Tick(code, vm).show.ended ==> Tick(code, vm).show.wakeup == vm.show.wakeup
    ensures !Tick(code, vm).show.resetPending
    ensures Tick(code, vm).show.ended ==> !Tick(code, vm).show.fade.active
  {
    TickReady(code, vm);
    SettleReady(vm.show);
    ReadyEffect(Settle(vm.show), Decode(code, vm.pc).0);
  }

  lemma ReadyEffect(s: Show, c: Command)
    requires Ready(s) && s.started == s.wakeup && !s.fade.active
    ensures var s' := Effect(s, c);
            s'.wakeup >= s.wakeup && s'.wakeup == s'.origin + s'.elapsed && !s'.resetPending
            && (s'.fade.active ==> s'.fade.start + s'.fade.duration <= s'.wakeup)
            && (s'.ended ==> s'.wakeup == s.wakeup && !s'.fade.active)
  {
    if c.FadeTo? {
      var w := DelayBy(s, c.msec).wakeup;
      assert (w - s.started) % ULONG_MODULUS <= w - s.started;
    }
  }

  // ---- start times of a straight list ----

  /** The time an instruction takes when it does not wait for a deadline. */
  function Takes(i: Instr): nat
    requires i.Legal()
  {
    match i.Meaning()
    case Sleep(d) => d
    case SetColor(_, d) => d
    case FadeTo(_, d) => d
    case _ => 0
  }

  function TotalTime(xs: seq<Instr>): nat
    requires AllLegal(xs)
    decreases |xs|
  {
    if xs == [] then 0 else Takes(xs[0]) + TotalTime(xs[1..])
  }

  /** Without deadlines, the k-th command of an unrolled program starts after the summed
      durations of the commands before it. */
  lemma {:induction false} StartTimes(s: Show, xs: seq<Instr>, k: nat)
    requires Ready(s) && AllLegal(xs) && k < |xs|
    requires forall i :: 0 <= i < |xs| ==> !xs[i].Meaning().WaitUntil?
    ensures |Perform(s, xs).1| == |xs|
    ensures Perform(s, xs).1[k].time == s.wakeup + TotalTime(xs[..k])
    ensures Perform(s, xs).1[k].command == xs[k].Meaning()
    decreases |xs|
  {
    SettleReady(s);
    EffectReady(Settle(s), xs[0]);
    var s' := Effect(Settle(s), xs[0].Meaning());
    EffectTakes(Settle(s), xs[0]);
    PerformLength(s', xs[1..]);
    if k > 0 {
      StartTimes(s', xs[1..], k - 1);
      assert xs[..k][1..] == xs[1..][..k - 1];
    }
  }

  lemma EffectTakes(s: Show, i: Instr)
    requires Ready(s) && i.Legal() && !i.Meaning().WaitUntil?
    ensures Effect(s, i.Meaning()).wakeup == s.wakeup + Takes(i)
  {
  }

  lemma {:induction false} PerformLength(s: Show, xs: seq<Instr>)
    requires AllLegal(xs)
    ensures |Perform(s, xs).1| == |xs|
    decreases |xs|
  {
    if xs != [] { PerformLength(Effect(Settle(s), xs[0].Meaning()), xs[1..]); }
  }
}
