// A seek shows what the program shows at that instant, whatever was played before.
module LightSeek {
  import opened Basics
  import opened Iteration
  import opened LightVm
  import opened LightProgram
  import opened LightSchedule
  import opened LightPlayer

  /** The program's time goes past every instant: no zero-time cycle (see LightLiveness). */
  ghost predicate Live(code: seq<Byte>) { forall t: nat :: Reaches(code, t) }

  ghost predicate Reaches(code: seq<Byte>, t: nat) { exists n: nat :: DueTime(code, n) >= t }

  /** `p` stands at index `n` of the nominal run: every command due before `p.current` has
      been executed, possibly some due exactly then, and none due later. */
  ghost predicate Tracks(code: seq<Byte>, p: Player, n: nat) {
    var v := Nominal(code, n);
    && p.current <= p.next
    && !p.vm.show.resetPending
    && Same(p.vm, Glance(v, p.current))
    && (n > 0 ==> !Nominal(code, n - 1).show.ended && DueTime(code, n - 1) <= p.current)
    && (!v.show.ended ==> p.next == v.show.wakeup)
  }

  /** The same, for a player whose clock may still wait to be set at time zero. */
  ghost predicate Located(code: seq<Byte>, p: Player, n: nat) {
    if p.vm.show.resetPending then
      p.current == 0 && p.next == 0 && n == 0 && Tracks(code, ClockSet(p), 0)
    else Tracks(code, p, n)
  }

  function ClockSet(p: Player): Player { p.(vm := p.vm.(show := ApplyReset(p.vm.show, 0))) }

  /** Index of the command due at `t`: the first not due before `t`, or the end. */
  ghost predicate IsDueIndex(code: seq<Byte>, t: nat, m: nat) {
    (Nominal(code, m).show.ended || DueTime(code, m) >= t)
    && forall k: nat :: k < m ==> !Nominal(code, k).show.ended && DueTime(code, k) < t
  }

  /** A command due exactly at `t` that leaves the time at `t`, the END command included. */
  ghost predicate ZeroDurationDue(code: seq<Byte>, m: nat, t: nat) {
    !Nominal(code, m).show.ended && DueTime(code, m) == t
    && (Nominal(code, m + 1).show.ended || DueTime(code, m + 1) == t)
  }

  // ---- the start ----

  lemma RewoundIsLocated(code: seq<Byte>, vm: Vm)
    ensures Located(code, Player(Rewind(code, vm), 0, 0), 0)
  {
    assert Nominal(code, 0) == Boot(code, 0);
  }

  /** With the clock pending, the first step is the step of the machine whose clock is set. */
  lemma PendingStep(code: seq<Byte>, p: Player)
    requires p.vm.show.resetPending && p.current == 0 && p.next == 0
    ensures Lap(code, p) == Lap(code, ClockSet(p)) && Land(code, p, 0) == Land(code, ClockSet(p), 0)
  {
    hide Execute, StepFade;
  }

  // ---- one step of a tracking player ----

  /** Before its next command is due a machine only glances at its fade. */
  lemma StepBefore(code: seq<Byte>, vm: Vm, t: nat)
    requires !vm.show.resetPending && !vm.show.ended && t < vm.show.wakeup
    ensures Step(code, vm, t) == Glance(vm, t)
  {
    FadeKeepsSchedule(vm.show, t);
  }

  /** Glancing on the way changes neither the step that follows nor what it shows. */
  lemma StepAfterGlance(code: seq<Byte>, vm: Vm, t: nat, u: nat)
    requires !vm.show.resetPending && t <= u
    requires vm.show.ended ==> !vm.show.fade.active
    ensures Step(code, Glance(vm, t), u) == Step(code, vm, u)
  {
    hide Execute, StepFade;
    FadeKeepsSchedule(vm.show, t);
    GlanceTwice(vm.show, t, u);
    if vm.show.ended { assert StepFade(vm.show, t) == vm.show by { NoFade(vm.show, t); } }
  }

  lemma NoFade(s: Show, t: nat)
    requires !s.fade.active
    ensures StepFade(s, t) == s
  {
  }

  /** What any step of a tracking player at or after its current time amounts to. */
  lemma TrackedStep(code: seq<Byte>, p: Player, n: nat, t: nat)
    requires Tracks(code, p, n) && t >= p.current
    ensures Same(Step(code, p.vm, t), Step(code, Nominal(code, n), t))
    ensures Seen(Step(code, p.vm, t)) == Seen(Step(code, Nominal(code, n), t))
  {
    hide Step, Nominal, StepFade, Same, Glance;
    NominalRuns(code, n);
    SameStep(code, p.vm, Glance(Nominal(code, n), p.current), t);
    StepAfterGlance(code, Nominal(code, n), p.current, t);
  }

  /** A machine that has just executed a command shows that instant already. */
  lemma JustExecuted(code: seq<Byte>, n: nat)
    requires !Nominal(code, n).show.ended
    ensures Glance(Nominal(code, n + 1), DueTime(code, n)) == Nominal(code, n + 1)
  {
    hide Nominal, Decode, Control, Tick;
    var vm := Nominal(code, n);
    NominalRuns(code, n);
    NominalNext(code, n);
    TickReady(code, vm);
    SettleReady(vm.show);
    FreshFade(Settle(vm.show), Decode(code, vm.pc).0);
  }

  lemma FreshFade(s: Show, c: Command)
    requires !s.fade.active && s.started == s.wakeup
    ensures StepFade(Effect(s, c), s.wakeup) == Effect(s, c)
  {
    hide Interpolate;
  }

  lemma EndedGlance(code: seq<Byte>, n: nat, t: nat)
    requires Nominal(code, n).show.ended
    ensures Glance(Nominal(code, n), t) == Nominal(code, n)
    ensures Same(Step(code, Nominal(code, n), t), Nominal(code, n))
    ensures Seen(Step(code, Nominal(code, n), t)) == Seen(Nominal(code, n)).(next := t + IDLE_MSEC)
  {
    hide Nominal;
    NominalRuns(code, n);
    NoFade(Nominal(code, n).show, t);
  }

  /** Landing at the target moves a tracking player at most one command ahead. */
  lemma LandTracks(code: seq<Byte>, p: Player, n: nat, t: nat)
    requires Tracks(code, p, n) && p.current <= t <= p.next
    ensures var v := Nominal(code, n).show;
            Tracks(code, Land(code, p, t), if !v.ended && t == v.wakeup then n + 1 else n)
    ensures Seen(Land(code, p, t).vm) == Seen(Step(code, Nominal(code, n), t))
  {
    hide Step, Nominal, Same, Glance;
    TrackedStep(code, p, n, t);
    var v := Nominal(code, n);
    NominalRuns(code, n);
    if v.show.ended {
      EndedGlance(code, n, t);
      SameTransitive(Step(code, p.vm, t), Step(code, v, t), v);
      LandedEnded(code, p, n, t);
    } else if t == v.show.wakeup {
      LandedDue(code, p, n);
    } else {
      StepBefore(code, v, t);
      LandedEarly(code, p, n, t);
    }
  }

  lemma SameTransitive(a: Vm, b: Vm, c: Vm)
    requires Same(a, b) && Same(b, c)
    ensures Same(a, c)
  {
    hide Canon;
  }

  lemma LandedEnded(code: seq<Byte>, p: Player, n: nat, t: nat)
    requires Tracks(code, p, n) && p.current <= t && Nominal(code, n).show.ended
    requires Same(Step(code, p.vm, t), Nominal(code, n))
    requires Glance(Nominal(code, n), t) == Nominal(code, n)
    requires Seen(Step(code, p.vm, t)).next == t + IDLE_MSEC
    ensures Tracks(code, Land(code, p, t), n)
  {
    hide Step, Nominal, Glance;
    NominalRuns(code, n);
  }

  lemma LandedEarly(code: seq<Byte>, p: Player, n: nat, t: nat)
    requires Tracks(code, p, n) && p.current <= t < p.next && !Nominal(code, n).show.ended
    requires Same(Step(code, p.vm, t), Glance(Nominal(code, n), t))
    requires Seen(Step(code, p.vm, t)) == Seen(Glance(Nominal(code, n), t))
    ensures Tracks(code, Land(code, p, t), n)
  {
    hide Step, Nominal, Canon;
    NominalRuns(code, n);
    FadeKeepsSchedule(Nominal(code, n).show, t);
    SamePending(Step(code, p.vm, t), Glance(Nominal(code, n), t));
  }

  lemma SamePending(a: Vm, b: Vm)
    requires Same(a, b)
    ensures a.show.resetPending == b.show.resetPending && a.show.ended == b.show.ended
  {
  }

  lemma LandedDue(code: seq<Byte>, p: Player, n: nat)
    requires Tracks(code, p, n) && !Nominal(code, n).show.ended
    requires Same(Step(code, p.vm, p.next), Step(code, Nominal(code, n), p.next))
    requires Seen(Step(code, p.vm, p.next)) == Seen(Step(code, Nominal(code, n), p.next))
    ensures Tracks(code, Land(code, p, p.next), n + 1)
  {
    hide Step, Nominal, Same, Glance;
    NominalRuns(code, n);
    NominalRuns(code, n + 1);
    NominalNext(code, n);
    JustExecuted(code, n);
    SamePending(Step(code, p.vm, p.next), Nominal(code, n + 1));
  }

  /** A turn of the loop is a landing at the due time; the clamp in it is never needed. */
  lemma LapTracks(code: seq<Byte>, p: Player, n: nat)
    requires Tracks(code, p, n)
    ensures Lap(code, p) == Land(code, p, p.next)
    ensures Lap(code, p).next >= p.next
    ensures Nominal(code, n).show.ended ==> Lap(code, p).next == p.next + IDLE_MSEC
  {
    hide Step, Nominal, Same, Glance, Tracks;
    LapSeen(code, p, n);
    NominalRuns(code, n);
    NominalNext(code, n);
    if Nominal(code, n).show.ended { EndedGlance(code, n, p.next); }
  }

  lemma LapSeen(code: seq<Byte>, p: Player, n: nat)
    requires Tracks(code, p, n)
    ensures Seen(Step(code, p.vm, p.next)) == Seen(Step(code, Nominal(code, n), p.next))
    ensures !Nominal(code, n).show.ended ==> p.next == DueTime(code, n)
  {
    hide Step, Nominal, Same, Glance;
    TrackedStep(code, p, n, p.next);
  }

  // ---- the loop ----

  /** A turn that starts before the target keeps a located player located, one command or one
      idle minute further. */
  lemma LapLocated(code: seq<Byte>, p: Player, n: nat)
    requires Located(code, p, n)
    ensures var n' := if Nominal(code, n).show.ended then n else n + 1;
            Located(code, Lap(code, p), n') && Lap(code, p).current == p.next
    ensures Nominal(code, n).show.ended ==> Lap(code, p).next == p.next + IDLE_MSEC
  {
    hide Step, Nominal, Same, Glance, Tracks, Lap, Land;
    if p.vm.show.resetPending {
      PendingStep(code, p);
      LapLocatedSet(code, ClockSet(p), 0);
    } else {
      LapLocatedSet(code, p, n);
    }
  }

  lemma LapLocatedSet(code: seq<Byte>, p: Player, n: nat)
    requires Tracks(code, p, n)
    ensures var n' := if Nominal(code, n).show.ended then n else n + 1;
            Located(code, Lap(code, p), n') && Lap(code, p).current == p.next
    ensures Nominal(code, n).show.ended ==> Lap(code, p).next == p.next + IDLE_MSEC
  {
    hide Step, Nominal, Same, Glance;
    LapTracks(code, p, n);
    LandTracks(code, p, n, p.next);
  }

  /** Where the loop leaves a located player: not beyond the target, and still located. */
  lemma {:induction false} FlyLocated(code: seq<Byte>, p: Player, n: nat, t: nat, k: nat) returns (m: nat)
    requires Located(code, p, n) && p.current <= t && IsArrival(code, p, t, k)
    ensures var q := Iterate(Lapper(code), p, k);
            Located(code, q, m) && q.current <= t <= q.next && (q.current == t || p.next >= t ==> q == p && m == n)
    decreases k
  {
    hide Nominal, Tracks, Lap;
    LocatedShape(code, p, n);
    if k == 0 {
      m := n;
    } else {
      assert Iterate(Lapper(code), p, 0) == p;
      LapLocated(code, p, n);
      var p' := Lap(code, p);
      ArrivalTail(code, p, t, k);
      m := FlyLocated(code, p', if Nominal(code, n).show.ended then n else n + 1, t, k - 1);
    }
  }

  lemma LocatedShape(code: seq<Byte>, p: Player, n: nat)
    requires Located(code, p, n)
    ensures p.current <= p.next
    ensures Tracks(code, ClockSet(p), n) && (!p.vm.show.resetPending ==> ClockSet(p) == p)
    ensures Tracks(code, p, n) ==> !p.vm.show.resetPending
  {
    hide Nominal, Same, Glance;
  }

  lemma ArrivalTail(code: seq<Byte>, p: Player, t: nat, k: nat)
    requires IsArrival(code, p, t, k) && k > 0
    ensures IsArrival(code, Lap(code, p), t, k - 1) && p.next < t
    ensures Iterate(Lapper(code), p, k) == Iterate(Lapper(code), Lap(code, p), k - 1)
  {
    hide Lap;
    var p' := Lap(code, p);
    assert Lapper(code)(p) == p';
    assert Iterate(Lapper(code), p, 0).next < t;
    forall j: nat | j < k - 1 ensures Iterate(Lapper(code), p', j).next < t {
      assert Iterate(Lapper(code), p, j + 1) == Iterate(Lapper(code), p', j);
    }
  }

  lemma ArrivalHead(code: seq<Byte>, p: Player, t: nat, k: nat)
    requires p.next < t && IsArrival(code, Lap(code, p), t, k)
    ensures IsArrival(code, p, t, k + 1)
  {
    hide Lap;
    var p' := Lap(code, p);
    assert Lapper(code)(p) == p';
    forall j: nat | j < k + 1 ensures Iterate(Lapper(code), p, j).next < t {
      if j > 0 { assert Iterate(Lapper(code), p, j) == Iterate(Lapper(code), p', j - 1); }
    }
  }

  /** In a live program the seek loop ends. `last` is the index of a command due at or after
      the target, which bounds the turns before the end. */
  lemma {:induction false} LoopEnds(code: seq<Byte>, p: Player, n: nat, t: nat, last: nat)
    requires Located(code, p, n) && DueTime(code, last) >= t
    ensures CanArrive(code, p, t)
    decreases if Nominal(code, n).show.ended then 0 else 1, Max(0, last - n), Max(0, t - p.next)
  {
    hide Nominal, Tracks, Lap, Same;
    LocatedShape(code, p, n);
    if p.next >= t {
      assert IsArrival(code, p, t, 0);
    } else {
      LapLocated(code, p, n);
      LocatedIndex(code, p, n);
      if !Nominal(code, n).show.ended {
        if last <= n { NominalMonotone(code, last, n); }
        LoopEnds(code, Lap(code, p), n + 1, t, last);
      } else {
        LoopEnds(code, Lap(code, p), n, t, last);
      }
      var k: nat :| IsArrival(code, Lap(code, p), t, k);
      ArrivalHead(code, p, t, k);
    }
  }

  lemma LocatedIndex(code: seq<Byte>, p: Player, n: nat)
    requires Located(code, p, n)
    ensures !Nominal(code, n).show.ended ==> p.next == DueTime(code, n)
    ensures n > 0 ==> !Nominal(code, n - 1).show.ended && DueTime(code, n - 1) <= p.current
  {
    hide Nominal, Same, Glance;
    LocatedShape(code, p, n);
  }

  // ---- whole seeks ----

  /** A seek from any located player lands at the target from some located player that has
      executed nothing due after it. */
  lemma SeekLands(code: seq<Byte>, p: Player, n: nat, t: nat) returns (q: Player, m: nat)
    requires Live(code) && Located(code, p, n)
    ensures Located(code, q, m) && q.current <= t <= q.next
    ensures Seek(code, p, t) == Land(code, q, t)
    ensures q.current == t ==> m == if t < p.current then 0 else n
    ensures t == p.current && !p.vm.show.resetPending ==> m == n && q == p
  {
    hide Nominal, Tracks, Lap, Land, Rewind;
    var b := Begin(code, p, t);
    var i := if t < p.current then 0 else n;
    LocatedShape(code, p, n);
    if t < p.current { RewoundIsLocated(code, p.vm); }
    assert Reaches(code, t);
    var last: nat :| DueTime(code, last) >= t;
    LoopEnds(code, b, i, t, last);
    var k: nat :| IsArrival(code, b, t, k);
    m := FlyLocated(code, b, i, t, k);
    q := Iterate(Lapper(code), b, k);
    forall k': nat | IsArrival(code, b, t, k') ensures k' == k { ArrivalUnique(code, b, t, k', k); }
  }

  /** Landing, for a player whose clock may still be pending. */
  lemma LandLocated(code: seq<Byte>, q: Player, m: nat, t: nat)
    requires Located(code, q, m) && q.current <= t <= q.next
    ensures Seen(Land(code, q, t).vm) == Seen(Step(code, Nominal(code, m), t))
    ensures Land(code, q, t).current == t && Land(code, q, t).next == Seen(Land(code, q, t).vm).next
    ensures var v := Nominal(code, m).show;
            Tracks(code, Land(code, q, t), if !v.ended && t == v.wakeup then m + 1 else m)
    ensures !Land(code, q, t).vm.show.resetPending
  {
    hide Step, Nominal, Same, Glance;
    LocatedShape(code, q, m);
    if q.vm.show.resetPending {
      PendingStep(code, q);
      LandTracks(code, ClockSet(q), 0, 0);
    } else {
      LandTracks(code, q, m, t);
    }
  }

  lemma DueIndexAfter(code: seq<Byte>, q: Player, m: nat, t: nat)
    requires Located(code, q, m) && q.current < t <= q.next
    ensures IsDueIndex(code, t, m)
  {
    hide Nominal, Located;
    LocatedIndex(code, q, m);
    forall k: nat | k < m ensures !Nominal(code, k).show.ended && DueTime(code, k) < t {
      NominalMonotone(code, k, m - 1);
    }
  }

  lemma DueIndexUnique(code: seq<Byte>, t: nat, m: nat, n: nat)
    requires IsDueIndex(code, t, m) && IsDueIndex(code, t, n)
    ensures m == n
  {
    hide Nominal, DueTime;
  }

  lemma {:induction false} DueIndexExists(code: seq<Byte>, t: nat, last: nat) returns (m: nat)
    requires DueTime(code, last) >= t
    ensures IsDueIndex(code, t, m)
    decreases last
  {
    hide Nominal, DueTime;
    if k: nat :| k < last && DueTime(code, k) >= t {
      m := DueIndexExists(code, t, k);
    } else if Nominal(code, last).show.ended {
      m := FirstEnded(code, t, last);
    } else {
      forall k: nat | k < last ensures !Nominal(code, k).show.ended { NominalMonotone(code, k, last); }
      m := last;
    }
  }

  lemma {:induction false} FirstEnded(code: seq<Byte>, t: nat, last: nat) returns (m: nat)
    requires Nominal(code, last).show.ended
    requires forall k: nat :: k < last ==> DueTime(code, k) < t
    ensures IsDueIndex(code, t, m)
    decreases last
  {
    hide Nominal, DueTime;
    if k: nat :| k < last && Nominal(code, k).show.ended {
      m := FirstEnded(code, t, k);
    } else {
      m := last;
    }
  }

  // ---- the main results ----

  /** Unless a zero-duration command is due at `t`, a seek to `t` from any located player
      shows what the program itself shows at `t`. */
  lemma SeekAnswer(code: seq<Byte>, p: Player, n: nat, t: nat, d: nat)
    requires Live(code) && Located(code, p, n)
    requires IsDueIndex(code, t, d) && !ZeroDurationDue(code, d, t)
    ensures Seen(Seek(code, p, t).vm) == Seen(Step(code, Nominal(code, d), t))
  {
    hide Step, Nominal, Located, Seek, Land, DueTime;
    var q, m := SeekLands(code, p, n, t);
    LandLocated(code, q, m, t);
    if q.current < t {
      DueIndexAfter(code, q, m, t);
      DueIndexUnique(code, t, m, d);
    } else {
      DueNow(code, q, m, t, d);
      if m != d { SeenAgain(code, d, t); }
    }
  }

  /** A player that already stands at `t` has executed no more than the command due at `t`. */
  lemma DueNow(code: seq<Byte>, q: Player, m: nat, t: nat, d: nat)
    requires Located(code, q, m) && q.current == t && t <= q.next
    requires IsDueIndex(code, t, d) && !ZeroDurationDue(code, d, t)
    ensures m == d || (m == d + 1 && !Nominal(code, d).show.ended && DueTime(code, d) == t)
    ensures m == d + 1 ==> !Nominal(code, m).show.ended && DueTime(code, m) > t
  {
    hide Nominal, Located;
    LocatedIndex(code, q, m);
    if m < d {
      assert false;
    } else if d < m {
      NominalMonotone(code, d, m - 1);
      if d + 1 < m { NominalMonotone(code, d + 1, m - 1); }
      NominalRuns(code, d);
    }
  }

  /** Stepping again at the time of the command just executed shows the same. */
  lemma SeenAgain(code: seq<Byte>, d: nat, t: nat)
    requires !Nominal(code, d).show.ended && DueTime(code, d) == t
    requires !Nominal(code, d + 1).show.ended && DueTime(code, d + 1) > t
    ensures Seen(Step(code, Nominal(code, d + 1), t)) == Seen(Step(code, Nominal(code, d), t))
  {
    hide Nominal, Step;
    NominalNext(code, d);
    NominalRuns(code, d + 1);
    JustExecuted(code, d);
    StepBefore(code, Nominal(code, d + 1), t);
  }

  lemma {:induction false} SeekAllLocated(code: seq<Byte>, p: Player, n: nat, targets: seq<nat>) returns (m: nat)
    requires Live(code) && Located(code, p, n)
    ensures Located(code, SeekAll(code, p, targets), m)
    decreases |targets|
  {
    hide Nominal, Seek, Tracks, Land;
    if targets == [] {
      m := n;
    } else {
      var q, i := SeekLands(code, p, n, targets[0]);
      LandLocated(code, q, i, targets[0]);
      var v := Nominal(code, i).show;
      m := SeekAllLocated(code, Seek(code, p, targets[0]),
                          if !v.ended && targets[0] == v.wakeup then i + 1 else i, targets[1..]);
    }
  }

  /** Whatever was sought before, a seek to `t` gives the same colour, pyro channels, ended
      flag and next timestamp as the first seek of a new player. */
  ghost predicate HistoryFree(code: seq<Byte>, t: nat) {
    forall before: seq<nat> ::
      Seen(Seek(code, SeekAll(code, NewPlayer(code), before), t).vm)
      == Seen(Seek(code, NewPlayer(code), t).vm)
  }

  lemma NewPlayerLocated(code: seq<Byte>)
    ensures Located(code, NewPlayer(code), 0)
  {
    hide Step, Located, Rewind;
    RewoundIsLocated(code, Step([], Vm(0, [], Show(true, true, 0, 0, 0, 0, BLACK, 0,
                                                   Fade(false, 0, 0), BLACK, BLACK)), 0));
  }

  /** The exact condition: seeks to `t` are independent of history if and only if the command
      due at `t` (there is exactly one) is not a zero-duration command due at that instant. */
  lemma HistoryFreeIff(code: seq<Byte>, t: nat)
    requires Live(code)
    ensures HistoryFree(code, t) <==> forall d: nat :: IsDueIndex(code, t, d) ==> !ZeroDurationDue(code, d, t)
    ensures exists d: nat :: IsDueIndex(code, t, d)
    ensures forall d: nat, e: nat :: IsDueIndex(code, t, d) && IsDueIndex(code, t, e) ==> d == e
  {
    hide Nominal, DueTime, ZeroDurationDue, IsDueIndex, HistoryFree;
    assert Reaches(code, t);
    var last: nat :| DueTime(code, last) >= t;
    var d := DueIndexExists(code, t, last);
    HistoryFreeAt(code, t, d);
    forall a: nat, b: nat | IsDueIndex(code, t, a) && IsDueIndex(code, t, b) ensures a == b {
      DueIndexUnique(code, t, a, b);
    }
  }

  lemma HistoryFreeAt(code: seq<Byte>, t: nat, d: nat)
    requires Live(code) && IsDueIndex(code, t, d)
    ensures HistoryFree(code, t) <==> !ZeroDurationDue(code, d, t)
  {
    hide Step, Nominal, Located, Seek, DueTime, ZeroDurationDue, IsDueIndex, NewPlayer;
    NewPlayerLocated(code);
    var p := NewPlayer(code);
    if !ZeroDurationDue(code, d, t) {
      SeekAnswer(code, p, 0, t, d);
      forall before: seq<nat>
        ensures Seen(Seek(code, SeekAll(code, p, before), t).vm) == Seen(Seek(code, p, t).vm)
      {
        var n := SeekAllLocated(code, p, 0, before);
        SeekAnswer(code, SeekAll(code, p, before), n, t, d);
      }
    } else {
      var before := HistoryShows(code, p, t, d);
      assert Seen(Seek(code, SeekAll(code, p, before), t).vm) != Seen(Seek(code, p, t).vm);
    }
  }

  /** With a zero-duration command due at `t`, seeking to `t` over and over executes one
      command at a time until the next timestamp moves. */
  lemma HistoryShows(code: seq<Byte>, p: Player, t: nat, d: nat) returns (before: seq<nat>)
    requires Live(code) && IsDueIndex(code, t, d) && ZeroDurationDue(code, d, t)
    requires Located(code, p, 0) && p == NewPlayer(code)
    ensures Seen(Seek(code, SeekAll(code, p, before), t).vm) != Seen(Seek(code, p, t).vm)
  {
    hide Step, Nominal, Located, Seek, Land, NewPlayer;
    var q, m := SeekLands(code, p, 0, t);
    LandLocated(code, q, m, t);
    LandLocatedIndex(code, p, q, m, t, d);
    var p1 := Seek(code, p, t);
    NominalNext(code, d);
    NominalRuns(code, d);
    assert Reaches(code, t + 1);
    var last: nat :| DueTime(code, last) >= t + 1;
    var rest := Escape(code, p1, d + 1, t, last);
    before := [t] + rest;
    assert before[1..] == rest;
  }

  lemma LandLocatedIndex(code: seq<Byte>, p: Player, q: Player, m: nat, t: nat, d: nat)
    requires Located(code, q, m) && q.current <= t <= q.next && (q.current == t ==> m == 0)
    requires IsDueIndex(code, t, d)
    ensures m == d
  {
    hide Nominal, Located, DueTime;
    if q.current < t {
      DueIndexAfter(code, q, m, t);
      DueIndexUnique(code, t, m, d);
    } else {
      LocatedIndex(code, q, m);
      assert IsDueIndex(code, t, 0);
      DueIndexUnique(code, t, 0, d);
    }
  }

  lemma {:induction false} Escape(code: seq<Byte>, p: Player, i: nat, t: nat, last: nat) returns (ts: seq<nat>)
    requires Live(code) && Tracks(code, p, i) && p.current == t && DueTime(code, last) > t
    ensures Seen(Seek(code, SeekAll(code, p, ts), t).vm).next > t
    decreases Max(0, last - i)
  {
    hide Nominal, Seek, Land, Step, Same, Glance;
    var q, m := SeekLands(code, p, i, t);
    LandLocated(code, p, i, t);
    var p' := Seek(code, p, t);
    ts := [];
    if Seen(p'.vm).next <= t {
      StillAt(code, i, t, p.next);
      if last <= i { NominalMonotone(code, last, i); }
      var rest := Escape(code, p', i + 1, t, last);
      ts := [t] + rest;
      assert ts[1..] == rest;
    }
  }

  lemma StillAt(code: seq<Byte>, i: nat, t: nat, next: nat)
    requires Seen(Step(code, Nominal(code, i), t)).next <= t <= next
    requires !Nominal(code, i).show.ended ==> next == DueTime(code, i)
    ensures !Nominal(code, i).show.ended && DueTime(code, i) == t
  {
    hide Nominal;
    NominalRuns(code, i);
    if Nominal(code, i).show.ended {
      EndedGlance(code, i, t);
    } else if t < DueTime(code, i) {
      StepBefore(code, Nominal(code, i), t);
      FadeKeepsSchedule(Nominal(code, i).show, t);
    }
  }
}
