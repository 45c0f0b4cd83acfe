// Every seek returns exactly when no cycle of the program consumes no time; structured programs
// return, and find room for their loops exactly when they nest at most four deep.
module LightLiveness {
  import opened Basics
  import opened Iteration
  import opened LightVm
  import opened LightProgram
  import opened LightSchedule
  import opened LightPlayer
  import opened LightSeek
  import Varint

  /** The part of a state that decides how control and time go on. */
  datatype Place = Place(pc: nat, loops: seq<LoopItem>, origin: nat, wakeup: nat, ended: bool)

  function PlaceOf(vm: Vm): Place {
    Place(vm.pc, vm.loops, vm.show.origin, vm.show.wakeup, vm.show.ended)
  }

  function PlaceAt(code: seq<Byte>, n: nat): Place { PlaceOf(Nominal(code, n)) }

  /** The nominal run comes back to the same place at the same time. */
  ghost predicate ZeroTimeCycle(code: seq<Byte>) {
    exists i: nat, j: nat :: i < j && PlaceAt(code, i) == PlaceAt(code, j)
  }

  /** No loop is ever opened without a free slot in the loop stack. */
  ghost predicate AlwaysRoom(code: seq<Byte>) {
    forall n: nat :: Nominal(code, n).show.ended || Room(code, Nominal(code, n))
  }

  // ---- a cycle repeats forever ----

  lemma PlaceEffect(a: Show, b: Show, c: Command)
    requires Ready(a) && Ready(b) && a.origin == b.origin && a.wakeup == b.wakeup
    requires a.started == a.wakeup && b.started == b.wakeup
    ensures var a', b' := Effect(a, c), Effect(b, c);
            a'.origin == b'.origin && a'.wakeup == b'.wakeup && a'.ended == b'.ended
  {
    hide Interpolate, Progress, UpdatePyro;
  }

  lemma PlaceTick(code: seq<Byte>, a: Vm, b: Vm)
    requires Ready(a.show) && Ready(b.show) && PlaceOf(a) == PlaceOf(b)
    ensures PlaceOf(Tick(code, a)) == PlaceOf(Tick(code, b))
  {
    hide Decode, Control, Effect, Tick;
    TickReady(code, a);
    TickReady(code, b);
    SettleReady(a.show);
    SettleReady(b.show);
    SettlePlace(a.show);
    SettlePlace(b.show);
    PlaceEffect(Settle(a.show), Settle(b.show), Decode(code, a.pc).0);
  }

  lemma SettlePlace(s: Show)
    requires Ready(s)
    ensures Settle(s).origin == s.origin && Settle(s).wakeup == s.wakeup && Settle(s).started == s.wakeup
  {
    hide Interpolate, Progress;
  }

  lemma PlaceNext(code: seq<Byte>, i: nat, j: nat)
    requires PlaceAt(code, i) == PlaceAt(code, j) && !Nominal(code, i).show.ended
    ensures PlaceAt(code, i + 1) == PlaceAt(code, j + 1)
  {
    hide Nominal, Tick;
    NominalRuns(code, i);
    NominalRuns(code, j);
    NominalNext(code, i);
    NominalNext(code, j);
    PlaceTick(code, Nominal(code, i), Nominal(code, j));
  }

  lemma NotEndedInCycle(code: seq<Byte>, i: nat, j: nat)
    requires i < j && PlaceAt(code, i) == PlaceAt(code, j)
    ensures !Nominal(code, i).show.ended
  {
    hide Nominal;
    NominalRuns(code, i);
    NominalMonotone(code, i + 1, j);
  }

  /** In a cycle no command ever moves the time. */
  lemma {:induction false} CycleForever(code: seq<Byte>, i: nat, j: nat, n: nat)
    requires i < j && PlaceAt(code, i) == PlaceAt(code, j) && i <= n
    ensures DueTime(code, n) == DueTime(code, i)
    decreases n - i
  {
    hide Nominal, Tick;
    NotEndedInCycle(code, i, j);
    if i < n {
      PlaceNext(code, i, j);
      CycleForever(code, i + 1, j + 1, n);
      NominalMonotone(code, i, i + 1);
      NominalMonotone(code, i + 1, j);
    }
  }

  // ---- bounded time has finitely many places ----

  function Items(): set<LoopItem> {
    set start: nat, left: nat | 0 <= start < ADDRESS_LIMIT && 0 <= left < 256 :: LoopItem(start, left)
  }

  function Stacks(depth: nat): set<seq<LoopItem>> {
    if depth == 0 then {[]}
    else Stacks(depth - 1) + set s, x | s in Stacks(depth - 1) && x in Items() :: s + [x]
  }

  ghost predicate SmallStack(loops: seq<LoopItem>) {
    forall i :: 0 <= i < |loops| ==> loops[i].start < ADDRESS_LIMIT
  }

  lemma {:induction false} StackListed(loops: seq<LoopItem>, depth: nat)
    requires |loops| <= depth && SmallStack(loops)
    ensures loops in Stacks(depth)
    decreases depth
  {
    if |loops| == 0 {
      if depth > 0 { StackListed(loops, depth - 1); }
    } else {
      var k := |loops| - 1;
      StackListed(loops[..k], depth - 1);
      assert loops == loops[..k] + [loops[k]];
      assert LoopItem(loops[k].start, loops[k].left) in Items();
    }
  }

  function Places(t: nat): set<Place> {
    set pc: nat, loops, o: nat, w: nat |
      0 <= pc < ADDRESS_LIMIT && loops in Stacks(MAX_LOOP_DEPTH) && 0 <= o < t && 0 <= w < t
      :: Place(pc, loops, o, w, false)
  }

  /** Places stay within the address range and the depth of the stack. */
  ghost predicate Small(vm: Vm) {
    vm.pc < ADDRESS_LIMIT && SmallStack(vm.loops) && |vm.loops| <= MAX_LOOP_DEPTH
  }

  lemma DecodeSmall(code: seq<Byte>, pc: nat)
    requires |code| < ADDRESS_LIMIT && pc < ADDRESS_LIMIT
    ensures Decode(code, pc).1 < ADDRESS_LIMIT
  {
    hide Decode;
    DecodeNext(code, pc);
  }

  /** Decoding moves the program counter forward within the code, or not at all. */
  lemma DecodeNext(code: seq<Byte>, pc: nat)
    ensures Decode(code, pc).1 <= Max(pc, |code|)
  {
    hide Varint.End, Varint.Value;
    forall x: nat | x <= Max(pc, |code|) ensures ReadVarint(code, x).1 <= Max(pc, |code|) {}
  }

  lemma ControlSmall(next: nat, loops: seq<LoopItem>, c: Command)
    requires next < ADDRESS_LIMIT && SmallStack(loops) && |loops| <= MAX_LOOP_DEPTH
    requires c.LoopBegin? ==> |loops| < MAX_LOOP_DEPTH
    ensures var (pc, loops') := Control(next, loops, c);
            pc < ADDRESS_LIMIT && SmallStack(loops') && |loops'| <= MAX_LOOP_DEPTH
  {
  }

  lemma {:induction false} NominalSmall(code: seq<Byte>, n: nat)
    requires AlwaysRoom(code) && |code| < ADDRESS_LIMIT
    ensures Small(Nominal(code, n))
    decreases n
  {
    hide Tick, Decode, Control, Nominal;
    if n == 0 {
      NominalZero(code);
    } else {
      NominalSmall(code, n - 1);
      NominalRuns(code, n - 1);
      NominalNext(code, n - 1);
      var vm := Nominal(code, n - 1);
      if vm.show.ended {
        TickEndedPlace(code, vm);
      } else {
        TickReady(code, vm);
        DecodeSmall(code, vm.pc);
        ControlSmall(Decode(code, vm.pc).1, vm.loops, Decode(code, vm.pc).0);
      }
    }
  }

  lemma NominalZero(code: seq<Byte>)
    ensures Nominal(code, 0) == Boot(code, 0)
  {
  }

  lemma TickEndedPlace(code: seq<Byte>, vm: Vm)
    requires vm.show.ended && !vm.show.resetPending
    ensures Tick(code, vm).pc == vm.pc && Tick(code, vm).loops == vm.loops
  {
  }

  /** Distinct places cannot be more than the places there are. */
  lemma {:induction false} Distinct(code: seq<Byte>, n: nat) returns (seen: set<Place>)
    requires forall i: nat, j: nat :: i < j < n ==> PlaceAt(code, i) != PlaceAt(code, j)
    ensures |seen| == n && forall x :: x in seen ==> exists i: nat :: i < n && x == PlaceAt(code, i)
    ensures forall i: nat :: i < n ==> PlaceAt(code, i) in seen
    decreases n
  {
    hide PlaceAt;
    if n == 0 {
      seen := {};
    } else {
      var before := Distinct(code, n - 1);
      seen := before + {PlaceAt(code, n - 1)};
    }
  }

  /** A run that never gets to `t` never ends, for an ended program idles ever further. */
  lemma {:induction false} NeverEnded(code: seq<Byte>, t: nat, n: nat)
    requires forall k: nat :: DueTime(code, k) < t
    ensures !Nominal(code, n).show.ended
  {
    hide Nominal;
    if Nominal(code, n).show.ended {
      IdleFor(code, n, t);
    }
  }

  lemma {:induction false} IdleFor(code: seq<Byte>, n: nat, k: nat)
    requires Nominal(code, n).show.ended
    ensures DueTime(code, n + k) >= DueTime(code, n) + k
    ensures Nominal(code, n + k).show.ended
    decreases k
  {
    hide Nominal;
    if k > 0 {
      IdleFor(code, n, k - 1);
      NominalRuns(code, n + k - 1);
    }
  }

  lemma StuckPlaces(code: seq<Byte>, t: nat, n: nat)
    requires AlwaysRoom(code) && |code| < ADDRESS_LIMIT
    requires forall k: nat :: DueTime(code, k) < t
    ensures PlaceAt(code, n) in Places(t)
  {
    hide Nominal, Stacks;
    NeverEnded(code, t, n);
    NominalRuns(code, n);
    NominalSmall(code, n);
    StackListed(Nominal(code, n).loops, MAX_LOOP_DEPTH);
    assert DueTime(code, n) < t;
    var p := PlaceAt(code, n);
    assert p == Place(p.pc, p.loops, p.origin, p.wakeup, false);
  }

  /** The program's time goes past every instant exactly when no cycle takes no time. */
  lemma LiveIff(code: seq<Byte>)
    requires AlwaysRoom(code) && |code| < ADDRESS_LIMIT
    ensures Live(code) <==> !ZeroTimeCycle(code)
  {
    hide Nominal, Places, PlaceAt, DueTime;
    if ZeroTimeCycle(code) {
      var i: nat, j: nat :| i < j && PlaceAt(code, i) == PlaceAt(code, j);
      CycleStuck(code, i, j);
    } else if t: nat :| !Reaches(code, t) {
      forall k: nat ensures DueTime(code, k) < t {}
      var n := |Places(t)| + 1;
      var seen := Distinct(code, n);
      forall x | x in seen ensures x in Places(t) {
        var i: nat :| i < n && x == PlaceAt(code, i);
        StuckPlaces(code, t, i);
      }
      SubsetSize(seen, Places(t));
    }
  }

  // ---- seeks return exactly in live programs ----

  /** Every seek of a new player returns. */
  ghost predicate SeeksReturn(code: seq<Byte>) {
    forall t: nat :: CanArrive(code, Begin(code, NewPlayer(code), t), t)
  }

  /** While no command is due at or after `t`, each turn of the seek loop is one command. */
  lemma {:induction false} TurnIsCommand(code: seq<Byte>, t: nat, k: nat)
    requires forall n: nat :: DueTime(code, n) < t
    ensures var p := Iterate(Lapper(code), NewPlayer(code), k);
            Located(code, p, k) && p.next < t
    decreases k
  {
    hide Nominal, Located, Lap, NewPlayer;
    var p := Iterate(Lapper(code), NewPlayer(code), k);
    if k == 0 {
      NewPlayerLocated(code);
    } else {
      TurnIsCommand(code, t, k - 1);
      NeverEnded(code, t, k - 1);
      LapLocated(code, Iterate(Lapper(code), NewPlayer(code), k - 1), k - 1);
      IterateSucc(Lapper(code), NewPlayer(code), k - 1);
    }
    NeverEnded(code, t, k);
    LocatedIndex(code, p, k);
    assert DueTime(code, k) < t;
  }

  /** From wherever a live program's player stands, every seek returns. */
  lemma LiveReturns(code: seq<Byte>, p: Player, n: nat, t: nat)
    requires Live(code) && Located(code, p, n)
    ensures CanArrive(code, Begin(code, p, t), t)
  {
    hide Nominal, Located, Rewind;
    assert Reaches(code, t);
    var last: nat :| DueTime(code, last) >= t;
    if t < p.current { RewoundIsLocated(code, p.vm); }
    LoopEnds(code, Begin(code, p, t), if t < p.current then 0 else n, t, last);
  }

  lemma SeeksReturnIffLive(code: seq<Byte>)
    ensures SeeksReturn(code) <==> Live(code)
  {
    hide Nominal, Located, NewPlayer, DueTime, Iterate, Lapper;
    NewPlayerLocated(code);
    if Live(code) {
      forall t: nat ensures CanArrive(code, Begin(code, NewPlayer(code), t), t) {
        LiveReturns(code, NewPlayer(code), 0, t);
      }
    } else if SeeksReturn(code) {
      var t: nat :| !Reaches(code, t);
      forall n: nat ensures DueTime(code, n) < t {}
      StartsAtZero(code);
      assert CanArrive(code, Begin(code, NewPlayer(code), t), t);
      var k: nat :| IsArrival(code, NewPlayer(code), t, k);
      TurnIsCommand(code, t, k);
    }
  }

  lemma StartsAtZero(code: seq<Byte>)
    ensures NewPlayer(code).current == 0 && forall t: nat :: Begin(code, NewPlayer(code), t) == NewPlayer(code)
  {
    hide Step, Rewind;
  }

  /** The seek loop returns for every target exactly when the program has no cycle of places
      that takes no time. */
  lemma SeeksReturnIff(code: seq<Byte>)
    requires AlwaysRoom(code) && |code| < ADDRESS_LIMIT
    ensures SeeksReturn(code) <==> !ZeroTimeCycle(code)
  {
    hide AlwaysRoom, Live, SeeksReturn, ZeroTimeCycle;
    LiveIff(code);
    SeeksReturnIffLive(code);
  }

  lemma {:induction false} SubsetSize(a: set<Place>, b: set<Place>)
    requires a <= b
    ensures |a| <= |b|
    decreases a
  {
    if x :| x in a {
      SubsetSize(a - {x}, b - {x});
    }
  }

  lemma CycleStuck(code: seq<Byte>, i: nat, j: nat)
    requires i < j && PlaceAt(code, i) == PlaceAt(code, j)
    ensures !Reaches(code, DueTime(code, i) + 1)
  {
    hide Nominal;
    forall n: nat ensures DueTime(code, n) <= DueTime(code, i) {
      if n < i { NominalMonotone(code, n, i); } else { CycleForever(code, i, j, n); }
    }
  }

  // ---- a program in which no seek returns ----

  /** A jump to itself executes for ever at time zero. */
  lemma {:induction false} JumpStays(n: nat)
    ensures var vm := Nominal([0x12, 0], n);
            vm.pc == 0 && vm.loops == [] && vm.show.origin == 0 && vm.show.wakeup == 0 && !vm.show.ended
    decreases n
  {
    hide Nominal, Tick, Decode;
    if n == 0 {
      NominalZero([0x12, 0]);
    } else {
      JumpStays(n - 1);
      NominalRuns([0x12, 0], n - 1);
      NominalNext([0x12, 0], n - 1);
      JumpTick(Nominal([0x12, 0], n - 1));
    }
  }

  lemma DecodeJump()
    ensures Decode([0x12, 0], 0) == (Jump(0), 2)
  {
    var code := [0x12, 0];
    assert Varint.End(code, 1) == 1;
    assert code[1..2] == [0];
    assert ReadVarint(code, 1) == (0, 2);
  }

  lemma JumpTick(vm: Vm)
    requires vm.pc == 0 && Ready(vm.show)
    ensures var vm' := Tick([0x12, 0], vm);
            vm'.pc == 0 && vm'.loops == [] && !vm'.show.ended
            && vm'.show.origin == vm.show.origin && vm'.show.wakeup == vm.show.wakeup
  {
    hide Decode, Tick;
    DecodeJump();
    TickReady([0x12, 0], vm);
    SettleReady(vm.show);
    SettlePlace(vm.show);
  }

  /** A jump to itself: a cycle that takes no time, in which some seek does not return. */
  lemma JumpDeparts()
    ensures ZeroTimeCycle([0x12, 0]) && AlwaysRoom([0x12, 0]) && !SeeksReturn([0x12, 0])
  {
    hide Nominal, Decode, SeeksReturn;
    var code := [0x12, 0];
    JumpStays(0);
    JumpStays(1);
    assert PlaceAt(code, 0) == PlaceAt(code, 1);
    DecodeJump();
    forall n: nat ensures Room(code, Nominal(code, n)) { JumpStays(n); }
    SeeksReturnIff(code);
  }

  // ---- structured programs ----

  /** Every structured program nested at most four deep lets every seek return and never
      overflows the loop stack. */
  lemma StructuredIsLive(p: Prog, tail: seq<Byte>)
    requires p.Legal() && p.Depth() <= MAX_LOOP_DEPTH && (tail == [] || tail[0] == 0x00)
    ensures Live(p.Bytes() + tail) && AlwaysRoom(p.Bytes() + tail) && SeeksReturn(p.Bytes() + tail)
  {
    var code := p.Bytes() + tail;
    hide Nominal, Tick, Step, SeeksReturn;
    SeeksReturnIffLive(code);
    NominalZero(code);
    var last := if code == [] then 0 else p.Ticks() + 1;
    EndsBy(p, tail, last);
    forall t: nat ensures Reaches(code, t) {
      IdleFor(code, last, t);
      assert DueTime(code, last + t) >= t;
    }
    forall n: nat ensures Nominal(code, n).show.ended || Room(code, Nominal(code, n)) {
      if n >= last { NominalMonotone(code, last, n); } else { RoomBefore(p, tail, n); }
    }
  }

  lemma EndsBy(p: Prog, tail: seq<Byte>, last: nat)
    requires p.Legal() && p.Depth() <= MAX_LOOP_DEPTH && (tail == [] || tail[0] == 0x00)
    requires last == if p.Bytes() + tail == [] then 0 else p.Ticks() + 1
    ensures Nominal(p.Bytes() + tail, last).show.ended
  {
    hide Tick, Iterate, Prog.Bytes, Prog.Ticks;
    var code := p.Bytes() + tail;
    if code == [] { NominalZero(code); } else { EndsAtLast(p, tail); }
  }

  lemma EndsAtLast(p: Prog, tail: seq<Byte>)
    requires p.Legal() && p.Depth() <= MAX_LOOP_DEPTH && (tail == [] || tail[0] == 0x00)
    requires p.Bytes() + tail != []
    ensures Nominal(p.Bytes() + tail, p.Ticks() + 1).show.ended
  {
    hide Tick, Iterate, Trace, Throughout, Prog.Bytes, Prog.Unrolled, Prog.Ticks, PerformAndEnd, AtStart, Boot,
      Ticker, Roomy, Observer;
    BootStarts(p.Bytes() + tail);
    ProgramPlaysUnrolled(p, tail, Boot(p.Bytes() + tail, 0));
  }

  lemma RoomBefore(p: Prog, tail: seq<Byte>, n: nat)
    requires p.Legal() && p.Depth() <= MAX_LOOP_DEPTH && (tail == [] || tail[0] == 0x00)
    requires p.Bytes() + tail != [] && n < p.Ticks() + 1
    ensures Room(p.Bytes() + tail, Nominal(p.Bytes() + tail, n))
  {
    hide Iterate, Room, Throughout, Trace, Prog.Bytes, Prog.Unrolled, Prog.Ticks, PerformAndEnd, Boot, AtStart,
      Ticker, Roomy, Observer;
    var code := p.Bytes() + tail;
    BootStarts(code);
    ProgramPlaysUnrolled(p, tail, Boot(code, 0));
    RoomThroughout(code, Boot(code, 0), p.Ticks() + 1, n);
  }

  lemma BootStarts(code: seq<Byte>)
    requires code != []
    ensures AtStart(Boot(code, 0))
  {
  }

  lemma RoomThroughout(code: seq<Byte>, vm: Vm, m: nat, n: nat)
    requires Throughout(Ticker(code), Roomy(code), vm, m) && n < m
    ensures Room(code, Iterate(Ticker(code), vm, n))
  {
    hide Room, Throughout;
    ThroughoutAt(Ticker(code), Roomy(code), vm, m, n);
  }

  // ---- structured programs that nest too deep ----

  lemma NoRoom(code: seq<Byte>, vm: Vm, n: Byte)
    requires At(code, vm.pc, [0x0C, n]) && |vm.loops| >= MAX_LOOP_DEPTH
    ensures !Room(code, vm)
  {
    AtIndex(code, vm.pc, [0x0C, n], 0);
  }

  lemma Onward(code: seq<Byte>, vm: Vm, m: nat, n: nat, pc: nat, loops: seq<LoopItem>, xs: seq<Instr>)
    requires AllLegal(xs) && PlaysTo(code, vm, m, pc, loops, xs)
    ensures var vm' := Iterate(Ticker(code), vm, m);
            vm'.pc == pc && vm'.loops == loops && Ready(vm'.show)
            && Iterate(Ticker(code), vm, m + n) == Iterate(Ticker(code), vm', n)
  {
    hide Iterate, Trace, Throughout, Perform;
    PlaysToWhere(code, vm, m, pc, loops, xs);
    IterateAdd(Ticker(code), vm, m, n);
  }

  /** A program that nests deeper than the open loops leave room for comes to a loop command
      with all four slots taken, in every surrounding code. */
  lemma {:induction false} Overflows(code: seq<Byte>, vm: Vm, p: Prog) returns (n: nat)
    requires p.Legal() && At(code, vm.pc, p.Bytes()) && Ready(vm.show)
    requires |vm.loops| <= MAX_LOOP_DEPTH < |vm.loops| + p.Depth()
    ensures var vm' := Iterate(Ticker(code), vm, n);
            Ready(vm'.show) && !Room(code, vm')
    decreases p, 0
  {
    hide PlaysTo, Ready, At, Instr.Bytes, Instr.Legal, Repeat, Room, Tick, Prog.Bytes, Prog.Unrolled, Prog.Ticks;
    n := 0;
    match p
    case Stop =>
    case Do(i, rest) =>
      AtDo(code, vm.pc, p);
      PlayOne(code, vm, i);
      n := OverflowsNext(code, vm, 1, vm.pc + |i.Bytes()|, vm.loops, [i], rest);
    case Loop(c, body, after) =>
      AtLoop(code, vm.pc, p);
      if |vm.loops| == MAX_LOOP_DEPTH {
        NoRoom(code, vm, c);
      } else if |vm.loops| + 1 + body.Depth() > MAX_LOOP_DEPTH {
        PlayLoopBegin(code, vm, c);
        PlaySilently(code, vm, vm.pc + 2, vm.loops + [LoopItem(vm.pc + 2, c)]);
        n := OverflowsNext(code, vm, 1, vm.pc + 2, vm.loops + [LoopItem(vm.pc + 2, c)], [], body);
      } else {
        PlaysLoop(code, vm, c, body);
        n := OverflowsNext(code, vm, 1 + LoopTicks(body.Ticks(), c), vm.pc + 3 + |body.Bytes()|, vm.loops,
                           Repeat(body.Unrolled(), c), after);
      }
  }

  /** The same for the rest of a program, after a stretch that has been played. */
  lemma {:induction false} OverflowsNext(code: seq<Byte>, vm: Vm, m: nat, pc: nat, loops: seq<LoopItem>,
                                         xs: seq<Instr>, rest: Prog) returns (n: nat)
    requires AllLegal(xs) && PlaysTo(code, vm, m, pc, loops, xs)
    requires rest.Legal() && At(code, pc, rest.Bytes())
    requires |loops| <= MAX_LOOP_DEPTH < |loops| + rest.Depth()
    ensures var vm' := Iterate(Ticker(code), vm, n);
            Ready(vm'.show) && !Room(code, vm')
    decreases rest, 1
  {
    hide PlaysTo, Ready, At, Room, Prog.Bytes, Ticker, Iterate;
    Onward(code, vm, m, 0, pc, loops, xs);
    var k := Overflows(code, Iterate(Ticker(code), vm, m), rest);
    Onward(code, vm, m, k, pc, loops, xs);
    n := m + k;
  }

  lemma AtDo(code: seq<Byte>, pc: nat, p: Prog)
    requires p.Do? && At(code, pc, p.Bytes())
    ensures At(code, pc, p.first.Bytes()) && At(code, pc + |p.first.Bytes()|, p.rest.Bytes())
  {
    AtSplit(code, pc, p.first.Bytes(), p.rest.Bytes());
  }

  /** A structured program finds room for every loop that it opens if and only if it nests at
      most four deep; with five it writes past the loop stack. */
  lemma AlwaysRoomIff(p: Prog, tail: seq<Byte>)
    requires p.Legal() && (tail == [] || tail[0] == 0x00)
    ensures AlwaysRoom(p.Bytes() + tail) <==> p.Depth() <= MAX_LOOP_DEPTH
  {
    hide AlwaysRoom;
    if p.Depth() <= MAX_LOOP_DEPTH { StructuredIsLive(p, tail); } else { DeepOverflows(p, tail); }
  }

  lemma DeepOverflows(p: Prog, tail: seq<Byte>)
    requires p.Legal() && p.Depth() > MAX_LOOP_DEPTH && (tail == [] || tail[0] == 0x00)
    ensures !AlwaysRoom(p.Bytes() + tail)
  {
    hide Tick, Room, At, Iterate, Boot, AtStart, Prog.Bytes, Prog.Depth;
    var code := p.Bytes() + tail;
    EndFollows(p.Bytes(), tail);
    DeepHasBytes(p);
    BootStarts(code);
    var n := OverflowsFrom(code, Boot(code, 0), p);
    assert Nominal(code, n) == Iterate(Ticker(code), Boot(code, 0), n);
  }

  lemma OverflowsFrom(code: seq<Byte>, vm: Vm, p: Prog) returns (n: nat)
    requires p.Legal() && At(code, 0, p.Bytes()) && AtStart(vm) && p.Depth() > MAX_LOOP_DEPTH
    ensures var vm' := Iterate(Ticker(code), vm, n);
            !vm'.show.ended && !Room(code, vm')
  {
    hide Iterate, Ticker, Room, At;
    n := Overflows(code, vm, p);
  }

  lemma DeepHasBytes(p: Prog)
    requires p.Depth() > 0
    ensures p.Bytes() != []
  {
  }

  /** The smallest program that overflows: five loops, one inside the other. */
  function Nest(depth: nat): Prog {
    if depth == 0 then Stop else Loop(1, Nest(depth - 1), Stop)
  }

  lemma FiveLoopsOverflow()
    ensures Nest(5).Legal() && !AlwaysRoom(Nest(5).Bytes())
    ensures Nest(5).Bytes() == [0x0C, 1, 0x0C, 1, 0x0C, 1, 0x0C, 1, 0x0C, 1, 0x0D, 0x0D, 0x0D, 0x0D, 0x0D]
  {
    hide AlwaysRoom;
    AlwaysRoomIff(Nest(5), []);
    assert Nest(5).Bytes() + [] == Nest(5).Bytes();
  }

  // ---- a seek whose answer depends on the seeks before it ----

  /** Black for no time at all, then white for 100 ms. */
  const BLACK_THEN_WHITE := Do(Timed(0x06, [], 0), Do(Timed(0x07, [], 5), Stop))

  lemma BlackThenWhiteBytes()
    ensures BLACK_THEN_WHITE.Bytes() == [0x06, 0, 0x07, 5]
    ensures BLACK_THEN_WHITE.Legal() && BLACK_THEN_WHITE.Depth() == 0
  {
    assert Varint.Encode(0) == [0] && Varint.Encode(5) == [5];
    var second := Do(Timed(0x07, [], 5), Stop);
    assert second.Bytes() == [0x07] + ([] + [5]) + [];
  }

  lemma FirstIsInstant()
    ensures var code := [0x06, 0, 0x07, 5];
            IsDueIndex(code, 0, 0) && ZeroDurationDue(code, 0, 0)
  {
    hide Interpolate, Decode;
    var code := [0x06, 0, 0x07, 5];
    NominalZero(code);
    NominalNext(code, 0);
    assert Varint.End(code, 1) == 1;
    assert code[1..2] == [0];
    assert ReadVarint(code, 1) == (0, 2);
    DecodeBlack(code);
  }

  lemma DecodeBlack(code: seq<Byte>)
    requires |code| >= 2 && code[0] == 0x06 && ReadVarint(code, 1) == (0, 2)
    ensures Decode(code, 0) == (SetColor(BLACK, 0), 2)
  {
    hide ReadVarint;
  }

  /** What a seek to time zero shows in this program depends on the seeks before it. */
  lemma SeekDeparts()
    ensures !HistoryFree(BLACK_THEN_WHITE.Bytes(), 0)
  {
    hide Nominal, HistoryFree, IsDueIndex, ZeroDurationDue, Live, AlwaysRoom, SeeksReturn;
    BlackThenWhiteBytes();
    var code := [0x06, 0, 0x07, 5];
    StructuredIsLive(BLACK_THEN_WHITE, []);
    assert BLACK_THEN_WHITE.Bytes() + [] == code;
    FirstIsInstant();
    HistoryFreeIff(code, 0);
  }
}
