// Structured light programs and their meaning: a counted loop is its body written out.
module LightProgram {
  import opened Basics
  import opened Iteration
  import opened LightVm
  import Varint

  // ---- structured programs and their bytecode ----

  /** An instruction that neither jumps nor ends the program: an opcode, its fixed operands
      and, for the timed ones, a duration or deadline in units of 20 ms. */
  datatype Instr =
    | Plain(op: Byte)
    | Timed(op: Byte, operands: seq<Byte>, units: nat)
    | Masked(op: Byte, mask: Byte)
  {
    predicate Legal() {
      match this
      case Plain(op) => op in {0x01, 0x0E}
      case Timed(op, xs, _) =>
        || (op in {0x02, 0x03, 0x06, 0x07, 0x0A, 0x0B} && |xs| == 0)
        || (op in {0x05, 0x09} && |xs| == 1)
        || (op in {0x04, 0x08, 0x10, 0x11} && |xs| == 3)
      case Masked(op, _) => op in {0x14, 0x15}
    }

    function Bytes(): seq<Byte> {
      match this
      case Plain(op) => [op]
      case Timed(op, xs, units) => [op] + (xs + Varint.Encode(units))
      case Masked(op, m) => [op, m]
    }

    function Meaning(): Command
      requires Legal()
    {
      match this
      case Plain(op) => if op == 0x01 then Nop else ResetClock
      case Timed(op, xs, units) =>
        if op == 0x02 then Sleep(20 * units)
        else if op == 0x03 then WaitUntil(20 * units)
        else if op in {0x04, 0x05, 0x06, 0x07, 0x10} then SetColor(OperandColor(), 20 * units)
        else FadeTo(OperandColor(), 20 * units)
      case Masked(op, m) => if op == 0x14 then SetPyro(m) else SetPyroAll(m)
    }

    function OperandColor(): Rgb
      requires Legal() && Timed?
    {
      if op == 0x04 || op == 0x08 then Rgb(operands[0], operands[1], operands[2])
      else if op == 0x05 || op == 0x09 then Rgb(operands[0], operands[0], operands[0])
      else if op == 0x07 || op == 0x0B then WHITE
      else BLACK
    }
  }

  datatype Prog = Stop | Do(first: Instr, rest: Prog) | Loop(count: Byte, body: Prog, after: Prog)
  {
    predicate Legal() {
      match this
      case Stop => true
      case Do(i, rest) => i.Legal() && rest.Legal()
      case Loop(n, body, after) => n >= 1 && body.Legal() && after.Legal()
    }

    /** How deep the loops nest. */
    function Depth(): nat {
      match this
      case Stop => 0
      case Do(_, rest) => rest.Depth()
      case Loop(_, body, after) => Max(1 + body.Depth(), after.Depth())
    }

    function Bytes(): seq<Byte> {
      match this
      case Stop => []
      case Do(i, rest) => i.Bytes() + rest.Bytes()
      case Loop(n, body, after) => [0x0C, n] + (body.Bytes() + ([0x0D] + after.Bytes()))
    }

    /** The program with every loop written out. */
    function Unrolled(): seq<Instr> {
      match this
      case Stop => []
      case Do(i, rest) => [i] + rest.Unrolled()
      case Loop(n, body, after) => Repeat(body.Unrolled(), n) + after.Unrolled()
    }

    /** How many commands the machine executes for it, loop commands included. */
    function Ticks(): nat {
      match this
      case Stop => 0
      case Do(_, rest) => 1 + rest.Ticks()
      case Loop(n, body, after) => 1 + (LoopTicks(body.Ticks(), n) + after.Ticks())
    }
  }

  function Repeat(xs: seq<Instr>, n: nat): seq<Instr> {
    if n == 0 then [] else xs + Repeat(xs, n - 1)
  }

  function LoopTicks(body: nat, n: nat): nat {
    if n == 0 then 0 else (body + 1) + LoopTicks(body, n - 1)
  }

  /** A loop-free program. */
  function Straight(xs: seq<Instr>): Prog {
    if xs == [] then Stop else Do(xs[0], Straight(xs[1..]))
  }

  ghost predicate AllLegal(xs: seq<Instr>) { forall i :: 0 <= i < |xs| ==> xs[i].Legal() }

  // ---- the machine run on its own schedule, and the trace it leaves ----

  /** A command that acts on the outputs or the schedule, when it starts, and the outputs
      and the schedule it leaves (which give the colour at every later instant up to the next
      command). */
  datatype Event = Event(time: nat, command: Command, show: Show)

  function Tick(code: seq<Byte>, vm: Vm): Vm { Step(code, vm, vm.show.wakeup) }

  function Observe(code: seq<Byte>, vm: Vm): seq<Event> {
    var c := Decode(code, vm.pc).0;
    if c.LoopBegin? || c.LoopEnd? then [] else [Event(vm.show.wakeup, c, Tick(code, vm).show)]
  }

  /** A loop that is about to be opened finds a slot. */
  predicate Room(code: seq<Byte>, vm: Vm) {
    Decode(code, vm.pc).0.LoopBegin? ==> |vm.loops| < MAX_LOOP_DEPTH
  }

  function Ticker(code: seq<Byte>): Vm -> Vm { vm => Tick(code, vm) }

  function Observer(code: seq<Byte>): Vm -> seq<Event> { vm => Observe(code, vm) }

  function Roomy(code: seq<Byte>): Vm -> bool { vm => Room(code, vm) }

  // ---- the meaning of a straight list of commands, without any machine ----

  /** The outputs when the next command is about to start: a fade that is due has ended. */
  function Settle(s: Show): Show { StepFade(s, s.wakeup).(started := s.wakeup) }

  function Perform(s: Show, xs: seq<Instr>): (Show, seq<Event>)
    requires AllLegal(xs)
    decreases |xs|
  {
    if xs == [] then (s, [])
    else
      var s' := Effect(Settle(s), xs[0].Meaning());
      var (s'', events) := Perform(s', xs[1..]);
      (s'', [Event(s.wakeup, xs[0].Meaning(), s')] + events)
  }

  /** A running machine on its own schedule: the wakeup time is the clock origin plus the
      time consumed, and an active fade is over by then. */
  predicate Ready(s: Show) {
    && !s.ended
    && !s.resetPending
    && s.wakeup == s.origin + s.elapsed
    && (s.fade.active ==> s.fade.start + s.fade.duration <= s.wakeup)
  }

  // ---- decoding is independent of where the code stands ----

  lemma ReadVarintAt(code: seq<Byte>, pc: nat, v: nat)
    requires At(code, pc, Varint.Encode(v))
    ensures ReadVarint(code, pc) == (v, pc + |Varint.Encode(v)|)
  {
    Varint.DecodeEncode(code, pc, v);
  }

  lemma DecodeInstr(code: seq<Byte>, pc: nat, i: Instr)
    requires i.Legal() && At(code, pc, i.Bytes())
    ensures Decode(code, pc) == (i.Meaning(), pc + |i.Bytes()|)
  {
    AtIndex(code, pc, i.Bytes(), 0);
    match i
    case Plain(op) =>
    case Masked(op, m) => AtIndex(code, pc, i.Bytes(), 1);
    case Timed(op, xs, units) =>
      DecodeOperands(code, pc, i);
      if op in {0x02, 0x03} {
        DecodeWait(code, pc, i);
      } else {
        DecodeColored(code, pc, i);
      }
  }

  lemma DecodeOperands(code: seq<Byte>, pc: nat, i: Instr)
    requires i.Timed? && At(code, pc, i.Bytes())
    ensures At(code, pc + 1, i.operands)
    ensures ReadVarint(code, pc + 1 + |i.operands|) == (i.units, pc + |i.Bytes()|)
  {
    var tail := Varint.Encode(i.units);
    AtSplit(code, pc, [i.op], i.operands + tail);
    AtSplit(code, pc + 1, i.operands, tail);
    ReadVarintAt(code, pc + 1 + |i.operands|, i.units);
  }

  lemma DecodeWait(code: seq<Byte>, pc: nat, i: Instr)
    requires i.Legal() && i.Timed? && i.op in {0x02, 0x03} && pc < |code| && code[pc] == i.op
    requires ReadVarint(code, pc + 1 + |i.operands|) == (i.units, pc + |i.Bytes()|)
    ensures Decode(code, pc) == (i.Meaning(), pc + |i.Bytes()|)
  {
    hide ReadVarint;
  }

  lemma DecodeColored(code: seq<Byte>, pc: nat, i: Instr)
    requires i.Legal() && i.Timed? && i.op !in {0x02, 0x03} && pc < |code| && code[pc] == i.op
    requires At(code, pc + 1, i.operands)
    requires ReadVarint(code, pc + 1 + |i.operands|) == (i.units, pc + |i.Bytes()|)
    ensures Decode(code, pc) == (i.Meaning(), pc + |i.Bytes()|)
  {
    hide Decode, ReadColor, ReadVarint, Instr.Bytes, At;
    ReadColorAt(code, pc + 1, i);
    DecodeShape(code, pc, i.OperandColor(), pc + 1 + |i.operands|, i.units, pc + |i.Bytes()|);
    MeaningColored(i);
  }

  lemma MeaningColored(i: Instr)
    requires i.Legal() && i.Timed? && i.op !in {0x02, 0x03}
    ensures i.Meaning() == (if i.op in {0x04, 0x05, 0x06, 0x07, 0x10}
                            then SetColor(i.OperandColor(), i.units * 20)
                            else FadeTo(i.OperandColor(), i.units * 20))
    ensures i.op in {0x04, 0x05, 0x06, 0x07, 0x08, 0x09, 0x0A, 0x0B, 0x10, 0x11}
  {
  }

  lemma DecodeShape(code: seq<Byte>, pc: nat, c: Rgb, pc1: nat, v: nat, next: nat)
    requires pc < |code| && code[pc] in {0x04, 0x05, 0x06, 0x07, 0x08, 0x09, 0x0A, 0x0B, 0x10, 0x11}
    requires ReadColor(code, pc + 1, code[pc]) == (c, pc1) && ReadVarint(code, pc1) == (v, next)
    ensures Decode(code, pc)
            == (if code[pc] in {0x04, 0x05, 0x06, 0x07, 0x10} then SetColor(c, v * 20) else FadeTo(c, v * 20),
                next)
  {
  }

  lemma ReadColorAt(code: seq<Byte>, pc: nat, i: Instr)
    requires i.Legal() && i.Timed? && i.op !in {0x02, 0x03} && At(code, pc, i.operands)
    ensures ReadColor(code, pc, i.op) == (i.OperandColor(), pc + |i.operands|)
  {
    if |i.operands| > 0 { AtIndex(code, pc, i.operands, 0); }
    if |i.operands| > 2 {
      AtIndex(code, pc, i.operands, 1);
      AtIndex(code, pc, i.operands, 2);
    }
  }

  // ---- settling ----

  lemma SettleReady(s: Show)
    requires Ready(s)
    ensures Ready(Settle(s)) && !Settle(s).fade.active && Settle(Settle(s)) == Settle(s)
    ensures Settle(s).wakeup == s.wakeup
  {
  }

  lemma EffectReady(s: Show, i: Instr)
    requires Ready(s) && s.started == s.wakeup && !s.fade.active && i.Legal()
    ensures Ready(Effect(s, i.Meaning()))
    ensures Effect(s, i.Meaning()).wakeup >= s.wakeup
  {
    if i.Meaning().FadeTo? {
      var w := DelayBy(s, i.Meaning().msec).wakeup;
      assert (w - s.started) % ULONG_MODULUS <= w - s.started;
    }
  }

  lemma {:induction false} PerformReady(s: Show, xs: seq<Instr>)
    requires Ready(s) && AllLegal(xs)
    ensures Ready(Perform(s, xs).0)
    decreases |xs|
  {
    if xs != [] {
      SettleReady(s);
      EffectReady(Settle(s), xs[0]);
      PerformReady(Effect(Settle(s), xs[0].Meaning()), xs[1..]);
    }
  }

  /** Performance looks at its start only through Settle. */
  lemma PerformSettled(a: Show, b: Show, xs: seq<Instr>)
    requires Ready(a) && Ready(b) && Settle(a) == Settle(b) && AllLegal(xs)
    ensures Settle(Perform(a, xs).0) == Settle(Perform(b, xs).0)
    ensures Perform(a, xs).1 == Perform(b, xs).1
  {
    SettleReady(a);
    SettleReady(b);
  }

  lemma {:induction false} PerformConcat(s: Show, xs: seq<Instr>, ys: seq<Instr>)
    requires AllLegal(xs) && AllLegal(ys)
    ensures AllLegal(xs + ys)
    ensures Perform(s, xs + ys).0 == Perform(Perform(s, xs).0, ys).0
    ensures Perform(s, xs + ys).1 == Perform(s, xs).1 + Perform(Perform(s, xs).0, ys).1
    decreases |xs|
  {
    hide Settle, Effect, Instr.Legal;
    if xs == [] {
      assert xs + ys == ys;
    } else {
      PerformConcat(Effect(Settle(s), xs[0].Meaning()), xs[1..], ys);
      assert (xs + ys)[0] == xs[0] && (xs + ys)[1..] == xs[1..] + ys;
    }
  }

  lemma {:induction false} UnrolledLegal(p: Prog)
    requires p.Legal()
    ensures AllLegal(p.Unrolled())
  {
    match p
    case Stop =>
    case Do(_, rest) => UnrolledLegal(rest);
    case Loop(n, body, after) =>
      UnrolledLegal(body);
      UnrolledLegal(after);
      RepeatLegal(body.Unrolled(), n);
  }

  lemma {:induction false} RepeatLegal(xs: seq<Instr>, n: nat)
    requires AllLegal(xs)
    ensures AllLegal(Repeat(xs, n))
  {
    if n > 0 { RepeatLegal(xs, n - 1); }
  }

  // ---- playing ----

  /** From `vm`, the next `n` commands perform `xs` and leave the machine at `pc` with the
      given loops open, having found room for every loop on the way. */
  ghost predicate PlaysTo(code: seq<Byte>, vm: Vm, n: nat, pc: nat, loops: seq<LoopItem>, xs: seq<Instr>)
    requires AllLegal(xs)
  {
    var vm' := Iterate(Ticker(code), vm, n);
    && vm'.pc == pc && vm'.loops == loops
    && Ready(vm'.show)
    && Settle(vm'.show) == Settle(Perform(vm.show, xs).0)
    && Trace(Ticker(code), Observer(code), vm, n) == Perform(vm.show, xs).1
    && Throughout(Ticker(code), Roomy(code), vm, n)
  }

  /** Playing one stretch and then another performs one list and then the other. */
  lemma PlaysInTurn(code: seq<Byte>, vm: Vm, m: nat, vm1: Vm, xs: seq<Instr>,
                    n: nat, pc: nat, loops: seq<LoopItem>, ys: seq<Instr>)
    requires AllLegal(xs) && AllLegal(ys) && Ready(vm.show)
    requires vm1 == Iterate(Ticker(code), vm, m)
    requires PlaysTo(code, vm, m, vm1.pc, vm1.loops, xs)
    requires PlaysTo(code, vm1, n, pc, loops, ys)
    ensures AllLegal(xs + ys) && PlaysTo(code, vm, m + n, pc, loops, xs + ys)
  {
    var step := Ticker(code);
    IterateAdd(step, vm, m, n);
    TraceAdd(step, Observer(code), vm, m, n);
    ThroughoutAdd(step, Roomy(code), vm, m, n);
    PerformConcat(vm.show, xs, ys);
    PerformReady(vm.show, xs);
    PerformSettled(vm1.show, Perform(vm.show, xs).0, ys);
  }

  /** One machine step as a run of length one. */
  lemma PlayStep(code: seq<Byte>, vm: Vm)
    ensures Iterate(Ticker(code), vm, 1) == Tick(code, vm)
    ensures Trace(Ticker(code), Observer(code), vm, 1) == Observe(code, vm)
    ensures Throughout(Ticker(code), Roomy(code), vm, 1) == Room(code, vm)
  {
    var step := Ticker(code);
    assert Iterate(step, step(vm), 0) == step(vm);
    assert Trace(step, Observer(code), step(vm), 0) == [];
    assert Throughout(step, Roomy(code), step(vm), 0);
  }

  lemma PlayOne(code: seq<Byte>, vm: Vm, i: Instr)
    requires Ready(vm.show) && i.Legal() && At(code, vm.pc, i.Bytes())
    ensures AllLegal([i]) && PlaysTo(code, vm, 1, vm.pc + |i.Bytes()|, vm.loops, [i])
  {
    TickInstr(code, vm, i);
    PlayStep(code, vm);
    SettleReady(vm.show);
    EffectReady(Settle(vm.show), i);
    var s' := Effect(Settle(vm.show), i.Meaning());
    assert [i][1..] == [];
    assert Perform(s', []) == (s', []);
  }

  lemma TickInstr(code: seq<Byte>, vm: Vm, i: Instr)
    requires Ready(vm.show) && i.Legal() && At(code, vm.pc, i.Bytes())
    ensures Tick(code, vm)
            == Vm(vm.pc + |i.Bytes()|, vm.loops, Effect(Settle(vm.show), i.Meaning()))
    ensures Observe(code, vm) == [Event(vm.show.wakeup, i.Meaning(), Tick(code, vm).show)]
    ensures Room(code, vm)
  {
    DecodeInstr(code, vm.pc, i);
    TickReady(code, vm);
  }

  /** A tick of a running machine settles and executes. */
  lemma TickReady(code: seq<Byte>, vm: Vm)
    requires Ready(vm.show)
    ensures Tick(code, vm) == Execute(code, vm.(show := Settle(vm.show)))
  {
  }

  lemma PlayLoopBegin(code: seq<Byte>, vm: Vm, n: Byte)
    requires Ready(vm.show) && At(code, vm.pc, [0x0C, n]) && |vm.loops| < MAX_LOOP_DEPTH
    ensures Tick(code, vm) == Vm(vm.pc + 2, vm.loops + [LoopItem(vm.pc + 2, n)], Settle(vm.show))
    ensures Observe(code, vm) == [] && Room(code, vm)
  {
    TickReady(code, vm);
    AtIndex(code, vm.pc, [0x0C, n], 0);
    AtIndex(code, vm.pc, [0x0C, n], 1);
    assert Decode(code, vm.pc) == (LoopBegin(n), vm.pc + 2);
  }

  lemma PlayLoopEnd(code: seq<Byte>, vm: Vm, outer: seq<LoopItem>, top: LoopItem)
    requires Ready(vm.show) && At(code, vm.pc, [0x0D]) && vm.loops == outer + [top]
    ensures Observe(code, vm) == [] && Room(code, vm)
    ensures top.left == 1 ==> Tick(code, vm) == Vm(vm.pc + 1, outer, Settle(vm.show))
    ensures top.left >= 2 ==>
              Tick(code, vm)
              == Vm(top.start, outer + [LoopItem(top.start, top.left - 1)], Settle(vm.show))
    ensures top.left == 0 ==> Tick(code, vm) == Vm(top.start, vm.loops, Settle(vm.show))
  {
    TickReady(code, vm);
    AtIndex(code, vm.pc, [0x0D], 0);
    assert Decode(code, vm.pc) == (LoopEnd, vm.pc + 1);
    assert (outer + [top])[..|outer|] == outer;
    assert forall x :: (outer + [top])[|outer| := x] == outer + [x];
  }

  /** A loop command performs nothing. */
  lemma PlaySilently(code: seq<Byte>, vm: Vm, pc: nat, loops: seq<LoopItem>)
    requires Ready(vm.show) && Observe(code, vm) == [] && Room(code, vm)
    requires Tick(code, vm) == Vm(pc, loops, Settle(vm.show))
    ensures PlaysTo(code, vm, 1, pc, loops, [])
  {
    PlayStep(code, vm);
    SettleReady(vm.show);
  }

  // ---- the loop stack implements unrolling ----

  /** Playing a structured program performs its unrolling, in every surrounding code and
      under every set of open loops that leaves room for its nesting. */
  lemma {:induction false} PlaysUnrolled(code: seq<Byte>, vm: Vm, p: Prog)
    requires p.Legal() && At(code, vm.pc, p.Bytes()) && Ready(vm.show)
    requires |vm.loops| + p.Depth() <= MAX_LOOP_DEPTH
    ensures AllLegal(p.Unrolled())
    ensures PlaysTo(code, vm, p.Ticks(), vm.pc + |p.Bytes()|, vm.loops, p.Unrolled())
    decreases p, 0
  {
    hide PlaysTo, Ready, At, Instr.Bytes, Instr.Legal, Repeat;
    match p
    case Stop =>
      PlaysNothing(code, vm);
    case Do(i, rest) =>
      AtSplit(code, vm.pc, i.Bytes(), rest.Bytes());
      PlayOne(code, vm, i);
      PlaysThen(code, vm, 1, vm.pc + |i.Bytes()|, [i], rest);
    case Loop(n, body, after) =>
      AtLoop(code, vm.pc, p);
      PlaysLoop(code, vm, n, body);
      PlaysThen(code, vm, 1 + LoopTicks(body.Ticks(), n), vm.pc + 3 + |body.Bytes()|,
                Repeat(body.Unrolled(), n), after);
  }

  lemma PlaysNothing(code: seq<Byte>, vm: Vm)
    requires Ready(vm.show)
    ensures PlaysTo(code, vm, 0, vm.pc, vm.loops, [])
  {
  }

  /** A stretch that has been played, and the rest of the program. */
  lemma {:induction false} PlaysThen(code: seq<Byte>, vm: Vm, m: nat, mid: nat, xs: seq<Instr>, rest: Prog)
    requires AllLegal(xs) && Ready(vm.show) && PlaysTo(code, vm, m, mid, vm.loops, xs)
    requires rest.Legal() && At(code, mid, rest.Bytes()) && |vm.loops| + rest.Depth() <= MAX_LOOP_DEPTH
    ensures AllLegal(xs + rest.Unrolled())
    ensures PlaysTo(code, vm, m + rest.Ticks(), mid + |rest.Bytes()|, vm.loops, xs + rest.Unrolled())
    decreases rest, 1
  {
    hide Perform, Settle, Ready, Ticker, Observer, Roomy, Iterate, Trace, Throughout;
    var vm' := Iterate(Ticker(code), vm, m);
    PlaysUnrolled(code, vm', rest);
    PlaysInTurn(code, vm, m, vm', xs, rest.Ticks(), mid + |rest.Bytes()|, vm.loops, rest.Unrolled());
  }

  /** Where the parts of a loop stand. */
  lemma AtLoop(code: seq<Byte>, pc: nat, p: Prog)
    requires p.Loop? && At(code, pc, p.Bytes())
    ensures At(code, pc, [0x0C, p.count]) && At(code, pc + 2, p.body.Bytes())
    ensures At(code, pc + 2 + |p.body.Bytes()|, [0x0D])
    ensures At(code, pc + 3 + |p.body.Bytes()|, p.after.Bytes())
    ensures |p.Bytes()| == 3 + |p.body.Bytes()| + |p.after.Bytes()|
  {
    AtSplit(code, pc, [0x0C, p.count], p.body.Bytes() + ([0x0D] + p.after.Bytes()));
    AtSplit(code, pc + 2, p.body.Bytes(), [0x0D] + p.after.Bytes());
    AtSplit(code, pc + 2 + |p.body.Bytes()|, [0x0D], p.after.Bytes());
  }

  lemma {:induction false} PlaysLoop(code: seq<Byte>, vm: Vm, n: Byte, body: Prog)
    requires n >= 1 && body.Legal() && Ready(vm.show)
    requires At(code, vm.pc, [0x0C, n]) && At(code, vm.pc + 2, body.Bytes())
    requires At(code, vm.pc + 2 + |body.Bytes()|, [0x0D])
    requires |vm.loops| + 1 + body.Depth() <= MAX_LOOP_DEPTH
    ensures AllLegal(Repeat(body.Unrolled(), n))
    ensures PlaysTo(code, vm, 1 + LoopTicks(body.Ticks(), n), vm.pc + 3 + |body.Bytes()|,
                    vm.loops, Repeat(body.Unrolled(), n))
    decreases body, 2
  {
    hide Perform, Ready, Tick, Observe, Room, Iterate, Trace, Throughout, At;
    PlayLoopBegin(code, vm, n);
    var vm' := Tick(code, vm);
    PlaySilently(code, vm, vm'.pc, vm'.loops);
    SettleReady(vm.show);
    PlayStep(code, vm);
    var xs := Repeat(body.Unrolled(), n);
    PlaysRounds(code, vm', vm.loops, n, body);
    PlaysInTurn(code, vm, 1, vm', [], LoopTicks(body.Ticks(), n), vm.pc + 3 + |body.Bytes()|, vm.loops, xs);
    assert [] + xs == xs;
  }

  /** The rounds left of an open loop, up to and including the one that closes it. */
  lemma {:induction false} PlaysRounds(code: seq<Byte>, vm: Vm, outer: seq<LoopItem>, left: Byte, body: Prog)
    requires left >= 1 && body.Legal() && Ready(vm.show)
    requires vm.loops == outer + [LoopItem(vm.pc, left)]
    requires At(code, vm.pc, body.Bytes()) && At(code, vm.pc + |body.Bytes()|, [0x0D])
    requires |outer| + 1 + body.Depth() <= MAX_LOOP_DEPTH
    ensures AllLegal(Repeat(body.Unrolled(), left))
    ensures PlaysTo(code, vm, LoopTicks(body.Ticks(), left), vm.pc + |body.Bytes()| + 1,
                    outer, Repeat(body.Unrolled(), left))
    decreases body, 1, left
  {
    hide Perform, Settle, Ready, Ticker, Observer, Roomy, Iterate, Trace, Throughout, PlaysTo, At, Repeat, LoopTicks,
      Prog.Bytes, Prog.Unrolled, Prog.Ticks, Prog.Depth, Prog.Legal;
    PlaysUnrolled(code, vm, body);
    RepeatLegal(body.Unrolled(), left);
    RoundEnds(code, vm, outer, left, body);
    RoundsLeft(body.Unrolled(), body.Ticks(), left);
    if left > 1 {
      PlaysToWhere(code, vm, body.Ticks() + 1, vm.pc, outer + [LoopItem(vm.pc, left - 1)], body.Unrolled());
      var vm' := Iterate(Ticker(code), vm, body.Ticks() + 1);
      PlaysRounds(code, vm', outer, left - 1, body);
      PlaysInTurn(code, vm, body.Ticks() + 1, vm', body.Unrolled(), LoopTicks(body.Ticks(), left - 1),
                  vm.pc + |body.Bytes()| + 1, outer, Repeat(body.Unrolled(), left - 1));
    }
  }

  /** One round and the others. */
  lemma RoundsLeft(xs: seq<Instr>, ticks: nat, left: nat)
    requires left >= 1
    ensures Repeat(xs, left) == if left == 1 then xs else xs + Repeat(xs, left - 1)
    ensures LoopTicks(ticks, left) == if left == 1 then ticks + 1 else ticks + 1 + LoopTicks(ticks, left - 1)
  {
    if left == 1 {
      assert Repeat(xs, 0) == [] && xs + [] == xs;
      assert LoopTicks(ticks, 0) == 0;
    }
  }

  lemma PlaysToWhere(code: seq<Byte>, vm: Vm, n: nat, pc: nat, loops: seq<LoopItem>, xs: seq<Instr>)
    requires AllLegal(xs) && PlaysTo(code, vm, n, pc, loops, xs)
    ensures var vm' := Iterate(Ticker(code), vm, n);
            vm'.pc == pc && vm'.loops == loops && Ready(vm'.show)
  {
    hide Iterate, Trace, Throughout, Perform;
  }

  /** One round: the body, then the command that closes the loop or starts the next round. */
  lemma RoundEnds(code: seq<Byte>, vm: Vm, outer: seq<LoopItem>, left: Byte, body: Prog)
    requires left >= 1 && Ready(vm.show) && At(code, vm.pc + |body.Bytes()|, [0x0D])
    requires vm.loops == outer + [LoopItem(vm.pc, left)] && AllLegal(body.Unrolled())
    requires PlaysTo(code, vm, body.Ticks(), vm.pc + |body.Bytes()|, vm.loops, body.Unrolled())
    ensures PlaysTo(code, vm, body.Ticks() + 1,
                    if left == 1 then vm.pc + |body.Bytes()| + 1 else vm.pc,
                    if left == 1 then outer else outer + [LoopItem(vm.pc, left - 1)],
                    body.Unrolled())
  {
    hide Perform, Ticker, Observer, Roomy, Iterate, Trace, Throughout, Tick, PlaysTo, Ready, Settle, At,
      Prog.Bytes, Prog.Unrolled, Prog.Ticks;
    var vm1 := Iterate(Ticker(code), vm, body.Ticks());
    PlaysToWhere(code, vm, body.Ticks(), vm.pc + |body.Bytes()|, vm.loops, body.Unrolled());
    PlayLoopEnd(code, vm1, outer, LoopItem(vm.pc, left));
    var vm2 := Tick(code, vm1);
    PlaySilently(code, vm1, vm2.pc, vm2.loops);
    PlaysInTurn(code, vm, body.Ticks(), vm1, body.Unrolled(), 1, vm2.pc, vm2.loops, []);
    assert body.Unrolled() + [] == body.Unrolled();
  }

  // ---- loops without end ----

  /** One round of a loop without end. */
  lemma RoundAgain(code: seq<Byte>, vm: Vm, outer: seq<LoopItem>, body: Prog)
    requires body.Legal() && Ready(vm.show) && vm.loops == outer + [LoopItem(vm.pc, 0)]
    requires At(code, vm.pc, body.Bytes()) && At(code, vm.pc + |body.Bytes()|, [0x0D])
    requires |outer| + 1 + body.Depth() <= MAX_LOOP_DEPTH
    ensures AllLegal(body.Unrolled()) && PlaysTo(code, vm, body.Ticks() + 1, vm.pc, vm.loops, body.Unrolled())
  {
    hide Perform, Ticker, Observer, Roomy, Iterate, Trace, Throughout, Tick, PlaysTo, Ready, Settle, At,
      Prog.Bytes, Prog.Unrolled, Prog.Ticks, Prog.Depth, Prog.Legal;
    PlaysUnrolled(code, vm, body);
    var vm1 := Iterate(Ticker(code), vm, body.Ticks());
    PlaysToWhere(code, vm, body.Ticks(), vm.pc + |body.Bytes()|, vm.loops, body.Unrolled());
    PlayLoopEnd(code, vm1, outer, LoopItem(vm.pc, 0));
    PlaySilently(code, vm1, vm.pc, vm.loops);
    PlaysInTurn(code, vm, body.Ticks(), vm1, body.Unrolled(), 1, vm.pc, vm.loops, []);
    assert body.Unrolled() + [] == body.Unrolled();
  }

  /** A loop that is begun with count zero performs its body as often as one likes, and is then about
      to perform it again. */
  lemma {:induction false} PlaysForever(code: seq<Byte>, vm: Vm, body: Prog, rounds: nat)
    requires body.Legal() && Ready(vm.show) && At(code, vm.pc, [0x0C, 0])
    requires At(code, vm.pc + 2, body.Bytes()) && At(code, vm.pc + 2 + |body.Bytes()|, [0x0D])
    requires |vm.loops| + 1 + body.Depth() <= MAX_LOOP_DEPTH
    ensures AllLegal(Repeat(body.Unrolled(), rounds))
    ensures PlaysTo(code, vm, 1 + LoopTicks(body.Ticks(), rounds), vm.pc + 2,
                    vm.loops + [LoopItem(vm.pc + 2, 0)], Repeat(body.Unrolled(), rounds))
    decreases rounds
  {
    hide Perform, Ticker, Observer, Roomy, Iterate, Trace, Throughout, Tick, PlaysTo, Ready, Settle, At,
      Prog.Bytes, Prog.Unrolled, Prog.Ticks, Prog.Depth, Prog.Legal;
    UnrolledLegal(body);
    RepeatLegal(body.Unrolled(), rounds);
    if rounds == 0 {
      PlayLoopBegin(code, vm, 0);
      PlaySilently(code, vm, vm.pc + 2, vm.loops + [LoopItem(vm.pc + 2, 0)]);
    } else {
      PlaysForever(code, vm, body, rounds - 1);
      RepeatLegal(body.Unrolled(), rounds - 1);
      var n, xs := 1 + LoopTicks(body.Ticks(), rounds - 1), Repeat(body.Unrolled(), rounds - 1);
      var vm1 := Iterate(Ticker(code), vm, n);
      PlaysToWhere(code, vm, n, vm.pc + 2, vm.loops + [LoopItem(vm.pc + 2, 0)], xs);
      RoundAgain(code, vm1, vm.loops, body);
      PlaysInTurn(code, vm, n, vm1, xs, body.Ticks() + 1, vm.pc + 2, vm.loops + [LoopItem(vm.pc + 2, 0)],
                  body.Unrolled());
      RepeatAtEnd(body.Unrolled(), rounds);
      TicksAtEnd(body.Ticks(), rounds);
    }
  }

  lemma {:induction false} RepeatAtEnd(xs: seq<Instr>, n: nat)
    requires n >= 1
    ensures Repeat(xs, n) == Repeat(xs, n - 1) + xs
  {
    if n > 1 {
      RepeatAtEnd(xs, n - 1);
      assert xs + (Repeat(xs, n - 2) + xs) == (xs + Repeat(xs, n - 2)) + xs;
    } else {
      assert Repeat(xs, 0) == [] && xs + [] == [] + xs;
    }
  }

  lemma {:induction false} TicksAtEnd(ticks: nat, n: nat)
    requires n >= 1
    ensures LoopTicks(ticks, n) == LoopTicks(ticks, n - 1) + (ticks + 1)
  {
    if n > 1 {
      TicksAtEnd(ticks, n - 1);
    } else {
      assert LoopTicks(ticks, 0) == 0;
    }
  }

  // ---- whole programs ----

  /** A machine about to execute the first command, its clock already set. */
  predicate AtStart(vm: Vm) { vm.pc == 0 && vm.loops == [] && Ready(vm.show) }

  /** What performing a list and then ending leaves behind. */
  function PerformAndEnd(s: Show, xs: seq<Instr>): seq<Event>
    requires AllLegal(xs)
  {
    var (s', events) := Perform(s, xs);
    events + [Event(s'.wakeup, End, Effect(Settle(s'), End))]
  }

  lemma PlayEnd(code: seq<Byte>, vm: Vm)
    requires Ready(vm.show) && ByteAt(code, vm.pc) == 0x00
    ensures Tick(code, vm).show == Effect(Settle(vm.show), End)
    ensures Observe(code, vm) == [Event(vm.show.wakeup, End, Tick(code, vm).show)]
    ensures Room(code, vm)
  {
    TickReady(code, vm);
    assert Decode(code, vm.pc).0 == End;
  }

  /** A structured program, followed by an END command or by nothing at all, executes exactly
      the commands of its unrolling, each at the time and with the outputs of the unrolled
      list, then ends; no loop ever lacks a slot on the way. */
  lemma ProgramPlaysUnrolled(p: Prog, tail: seq<Byte>, vm: Vm)
    requires p.Legal() && p.Depth() <= MAX_LOOP_DEPTH && (tail == [] || tail[0] == 0x00)
    requires AtStart(vm)
    ensures AllLegal(p.Unrolled())
    ensures var code, n := p.Bytes() + tail, p.Ticks() + 1;
            Iterate(Ticker(code), vm, n).show.ended
            && Trace(Ticker(code), Observer(code), vm, n) == PerformAndEnd(vm.show, p.Unrolled())
            && Throughout(Ticker(code), Roomy(code), vm, n)
  {
    hide Prog.Bytes, Prog.Unrolled, Prog.Ticks, Iterate, Trace, Throughout, PlaysTo, PerformAndEnd, Ready, ByteAt;
    var code := p.Bytes() + tail;
    EndFollows(p.Bytes(), tail);
    PlaysUnrolled(code, vm, p);
    PlaysToWhere(code, vm, p.Ticks(), |p.Bytes()|, [], p.Unrolled());
    EndsAfter(code, vm, p.Ticks(), p.Unrolled());
  }

  lemma EndFollows(bytes: seq<Byte>, tail: seq<Byte>)
    requires tail == [] || tail[0] == 0x00
    ensures At(bytes + tail, 0, bytes) && ByteAt(bytes + tail, |bytes|) == 0x00
  {
  }

  lemma EndsAfter(code: seq<Byte>, vm: Vm, n: nat, xs: seq<Instr>)
    requires Ready(vm.show) && AllLegal(xs)
    requires var vm' := Iterate(Ticker(code), vm, n);
             PlaysTo(code, vm, n, vm'.pc, vm'.loops, xs) && ByteAt(code, vm'.pc) == 0x00
    ensures Iterate(Ticker(code), vm, n + 1).show.ended
    ensures Trace(Ticker(code), Observer(code), vm, n + 1) == PerformAndEnd(vm.show, xs)
    ensures Throughout(Ticker(code), Roomy(code), vm, n + 1)
  {
    hide Tick, Observe, Room, Step, Perform;
    var vm' := Iterate(Ticker(code), vm, n);
    PlayEnd(code, vm');
    PlayStep(code, vm');
    PerformReady(vm.show, xs);
    SettleReady(vm'.show);
    SettleReady(Perform(vm.show, xs).0);
    IterateAdd(Ticker(code), vm, n, 1);
    TraceAdd(Ticker(code), Observer(code), vm, n, 1);
    ThroughoutAdd(Ticker(code), Roomy(code), vm, n, 1);
  }

  lemma {:induction false} StraightIsItself(xs: seq<Instr>)
    requires AllLegal(xs)
    ensures Straight(xs).Legal() && Straight(xs).Depth() == 0 && Straight(xs).Unrolled() == xs
    decreases |xs|
  {
    if xs != [] { StraightIsItself(xs[1..]); }
  }

  /** The bytecode with loops and the bytecode with every loop written out leave the same
      trace: the same commands, start times and outputs. */
  lemma LoopsAreUnrolled(p: Prog, vm: Vm)
    requires p.Legal() && p.Depth() <= MAX_LOOP_DEPTH && AtStart(vm)
    ensures var q := Straight(p.Unrolled());
            var looped, flat := p.Bytes() + [0x00], q.Bytes() + [0x00];
            Trace(Ticker(looped), Observer(looped), vm, p.Ticks() + 1)
            == Trace(Ticker(flat), Observer(flat), vm, q.Ticks() + 1)
  {
    hide Trace, Iterate, Throughout, Ticker, Observer, PerformAndEnd, Ready;
    UnrolledLegal(p);
    StraightIsItself(p.Unrolled());
    ProgramPlaysUnrolled(p, [0x00], vm);
    ProgramPlaysUnrolled(Straight(p.Unrolled()), [0x00], vm);
  }
}
