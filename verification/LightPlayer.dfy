// Random access in time: what seeking a player to an instant shows, and when that does not
// depend on the seeks made before.
module LightPlayer {
  import opened Basics
  import opened Iteration
  import opened LightVm
  import opened LightProgram
  import opened LightSchedule

  // ---- the player as a value ----

  datatype Player = Player(vm: Vm, current: nat, next: nat)

  /** What a caller sees after a seek. */
  datatype Answer = Answer(color: Rgb, pyro: Byte, ended: bool, next: nat)

  function Seen(vm: Vm): Answer {
    Answer(vm.show.color, vm.show.pyro, vm.show.ended, vm.show.wakeup)
  }

  /** A new player steps its empty executor once before it is given its program. */
  function NewPlayer(code: seq<Byte>): Player {
    var blank := Vm(0, [], Show(true, true, 0, 0, 0, 0, BLACK, 0, Fade(false, 0, 0), BLACK, BLACK));
    Player(Rewind(code, Step([], blank, 0)), 0, 0)
  }

  /** Seeking backwards starts again from time zero. */
  function Begin(code: seq<Byte>, p: Player, target: nat): Player {
    if target < p.current then Player(Rewind(code, p.vm), 0, 0) else p
  }

  /** One turn of the seek loop: a step exactly when the next command is due. */
  function Lap(code: seq<Byte>, p: Player): Player {
    var vm := Step(code, p.vm, p.next);
    Player(vm, p.next, if vm.show.wakeup < p.next then p.next + 1 else vm.show.wakeup)
  }

  function Lapper(code: seq<Byte>): Player -> Player { p => Lap(code, p) }

  /** The final step at the target. */
  function Land(code: seq<Byte>, p: Player, target: nat): Player {
    var vm := Step(code, p.vm, target);
    Player(vm, target, vm.show.wakeup)
  }

  /** The loop ends after exactly `n` turns. */
  ghost predicate IsArrival(code: seq<Byte>, p: Player, target: nat, n: nat) {
    Iterate(Lapper(code), p, n).next >= target
    && forall k: nat :: k < n ==> Iterate(Lapper(code), p, k).next < target
  }

  ghost predicate CanArrive(code: seq<Byte>, p: Player, target: nat) {
    exists n: nat :: IsArrival(code, p, target, n)
  }

  /** A seek that returns; one that loops forever is left undefined (the player as it was). */
  ghost function Seek(code: seq<Byte>, p: Player, target: nat): Player {
    var q := Begin(code, p, target);
    if CanArrive(code, q, target) then
      var n: nat :| IsArrival(code, q, target, n);
      Land(code, Iterate(Lapper(code), q, n), target)
    else p
  }

  ghost function SeekAll(code: seq<Byte>, p: Player, targets: seq<nat>): Player
    decreases |targets|
  {
    if targets == [] then p else SeekAll(code, Seek(code, p, targets[0]), targets[1..])
  }

  lemma ArrivalUnique(code: seq<Byte>, p: Player, target: nat, m: nat, n: nat)
    requires IsArrival(code, p, target, m) && IsArrival(code, p, target, n)
    ensures m == n
  {
    hide Iterate, Lapper;
  }

  // ---- states that differ only in leftovers ----

  /** What is left of a finished fade, of the last command's start and, after the end, of the
      wakeup time never shows again. */
  function Canon(s: Show): Show {
    s.(started := 0,
       fade := if s.fade.active then s.fade else Fade(false, 0, 0),
       endColor := if s.fade.active then s.endColor else BLACK,
       wakeup := if s.ended then 0 else s.wakeup)
  }

  predicate Same(a: Vm, b: Vm) { a.pc == b.pc && a.loops == b.loops && Canon(a.show) == Canon(b.show) }

  lemma SameStepFade(a: Show, b: Show, now: nat)
    requires Canon(a) == Canon(b)
    ensures Canon(StepFade(a, now)) == Canon(StepFade(b, now))
  {
    hide Interpolate, Progress;
  }

  lemma SameEffect(a: Show, b: Show, c: Command)
    requires Canon(a) == Canon(b) && a.started == b.started && !a.ended
    ensures Canon(Effect(a, c)) == Canon(Effect(b, c))
    ensures Effect(a, c).wakeup == Effect(b, c).wakeup
  {
    hide Interpolate, Progress, UpdatePyro;
  }

  lemma SameStep(code: seq<Byte>, a: Vm, b: Vm, now: nat)
    requires Same(a, b) && !a.show.resetPending
    ensures Same(Step(code, a, now), Step(code, b, now))
    ensures Seen(Step(code, a, now)) == Seen(Step(code, b, now))
  {
    hide StepFade, Effect, Decode, Control;
    SameStepFade(a.show, b.show, now);
    FadeKeepsSchedule(a.show, now);
    FadeKeepsSchedule(b.show, now);
    var x, y := StepFade(a.show, now).(started := now), StepFade(b.show, now).(started := now);
    if !a.show.ended {
      SameEffect(x, y, Decode(code, a.pc).0);
    }
  }

  lemma FadeKeepsSchedule(s: Show, now: nat)
    ensures var s' := StepFade(s, now);
            s'.ended == s.ended && s'.wakeup == s.wakeup && s'.resetPending == s.resetPending
            && s'.origin == s.origin && s'.elapsed == s.elapsed && s'.pyro == s.pyro
  {
  }

  /** The state at `t` of a machine that waits for its next command. */
  function Glance(vm: Vm, t: nat): Vm { vm.(show := StepFade(vm.show, t)) }

  /** Looking twice is looking once, later. */
  lemma GlanceTwice(s: Show, t: nat, u: nat)
    requires t <= u
    ensures StepFade(StepFade(s, t), u) == StepFade(s, u)
  {
    hide Interpolate;
    if s.fade.active && Progress(s.fade, t) == 1.0 {
      assert Progress(s.fade, u) == 1.0;
    }
  }

  // ---- the nominal machine ----

  /** The time at which the machine's (n+1)-st command is due. */
  function DueTime(code: seq<Byte>, n: nat): nat { Nominal(code, n).show.wakeup }

  lemma NominalNext(code: seq<Byte>, n: nat)
    ensures Nominal(code, n + 1) == Tick(code, Nominal(code, n))
  {
    hide Tick;
    IterateSucc(Ticker(code), Boot(code, 0), n);
  }

  lemma TickEnded(code: seq<Byte>, vm: Vm)
    requires vm.show.ended && !vm.show.resetPending
    ensures Tick(code, vm).show == vm.show.(wakeup := vm.show.wakeup + IDLE_MSEC)
  {
  }

  /** Until it ends the nominal machine runs on schedule; it stays ended; its due times
      never decrease. */
  lemma {:induction false} NominalRuns(code: seq<Byte>, n: nat)
    ensures var s := Nominal(code, n).show;
            !s.resetPending && (s.ended ==> !s.fade.active) && (!s.ended ==> Ready(s))
    ensures DueTime(code, n + 1) >= DueTime(code, n)
    ensures Nominal(code, n).show.ended ==>
              Nominal(code, n + 1).show.ended && DueTime(code, n + 1) == DueTime(code, n) + IDLE_MSEC
    ensures !Nominal(code, n).show.ended && Nominal(code, n + 1).show.ended ==>
              DueTime(code, n + 1) == DueTime(code, n)
  {
    hide Tick;
    if n > 0 {
      NominalRuns(code, n - 1);
      NominalNext(code, n - 1);
      NominalTick(code, n - 1);
    }
    NominalNext(code, n);
    NominalTick(code, n);
  }

  lemma NominalTick(code: seq<Byte>, n: nat)
    requires var s := Nominal(code, n).show;
             !s.resetPending && (s.ended ==> !s.fade.active) && (!s.ended ==> Ready(s))
    ensures var s, s' := Nominal(code, n).show, Tick(code, Nominal(code, n)).show;
            && !s'.resetPending && (s'.ended ==> !s'.fade.active) && (!s'.ended ==> Ready(s'))
            && s'.wakeup >= s.wakeup
            && (s.ended ==> s'.ended && s'.wakeup == s.wakeup + IDLE_MSEC)
            && (!s.ended && s'.ended ==> s'.wakeup == s.wakeup)
  {
    hide Tick, Nominal;
    var vm := Nominal(code, n);
    if vm.show.ended { TickEnded(code, vm); } else { TickReadyAgain(code, vm); }
  }

  lemma {:induction false} NominalMonotone(code: seq<Byte>, m: nat, n: nat)
    requires m <= n
    ensures DueTime(code, m) <= DueTime(code, n)
    ensures Nominal(code, m).show.ended ==> Nominal(code, n).show.ended
    decreases n - m
  {
    hide Nominal;
    if m < n {
      NominalRuns(code, m);
      NominalMonotone(code, m + 1, n);
    }
  }
}
