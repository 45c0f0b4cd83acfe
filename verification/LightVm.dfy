// The light-program virtual machine as a function on states: what one step does.
// The classes in LightExecutor.dfy are proved to compute exactly these functions.
module LightVm {
  import opened Basics
  import Varint

  datatype Rgb = Rgb(red: Byte, green: Byte, blue: Byte)

  const BLACK := Rgb(0, 0, 0)
  const WHITE := Rgb(255, 255, 255)

  /** Modulus of the executor's unsigned long clock arithmetic. */
  const ULONG_MODULUS: nat := 0x1_0000_0000_0000_0000
  const ADDRESS_LIMIT: nat := 0x7FFF_FFFF
  const MAX_LOOP_DEPTH: nat := 4
  const IDLE_MSEC: nat := 60000

  // ---- commands ----

  datatype Command =
    | End
    | Nop
    | Sleep(msec: nat)
    | WaitUntil(deadline: nat)
    | SetColor(color: Rgb, msec: nat)
    | FadeTo(color: Rgb, msec: nat)
    | LoopBegin(iterations: Byte)
    | LoopEnd
    | ResetClock
    | Jump(address: nat)
    | TriggeredJump(addressValid: bool)
    | SetPyro(mask: Byte)
    | SetPyroAll(channels: Byte)
    | Unknown

  /** The byte at `pc`; every byte past the end of the store reads as the END command. */
  function ByteAt(code: seq<Byte>, pc: nat): Byte {
    if pc < |code| then code[pc] else 0
  }

  /** The store's internal index stops at its end. */
  function Next(code: seq<Byte>, pc: nat): nat {
    if pc < |code| then pc + 1 else pc
  }

  /** The executor's own variable-length reader: a number, and where reading stops. */
  function ReadVarint(code: seq<Byte>, pc: nat): (r: (nat, nat)) {
    if pc >= |code| then (0, pc)
    else
      var e := Varint.End(code, pc);
      if e == |code| then (Varint.Value(code[pc..]), e) else (Varint.Value(code[pc..e + 1]), e + 1)
  }

  /** Durations and deadlines are stored in units of 20 ms. */
  function ReadDuration(code: seq<Byte>, pc: nat): (nat, nat) {
    var (v, next) := ReadVarint(code, pc);
    (v * 20, next)
  }

  function ReadRgb(code: seq<Byte>, pc: nat): (Rgb, nat) {
    var pc1 := Next(code, pc);
    var pc2 := Next(code, pc1);
    (Rgb(ByteAt(code, pc), ByteAt(code, pc1), ByteAt(code, pc2)), Next(code, pc2))
  }

  function ReadGray(code: seq<Byte>, pc: nat): (Rgb, nat) {
    var v := ByteAt(code, pc);
    (Rgb(v, v, v), Next(code, pc))
  }

  /** The command at `pc` and the address after its last argument byte. Without a signal
      source the channel commands show black, and a triggered jump only checks its address. */
  function Decode(code: seq<Byte>, pc: nat): (Command, nat) {
    var op := ByteAt(code, pc);
    var args := Next(code, pc);
    if op == 0x00 then (End, args)
    else if op == 0x01 then (Nop, args)
    else if op == 0x02 then var (d, next) := ReadDuration(code, args); (Sleep(d), next)
    else if op == 0x03 then var (d, next) := ReadDuration(code, args); (WaitUntil(d), next)
    else if op in {0x04, 0x05, 0x06, 0x07, 0x10} then
      var (c, pc1) := ReadColor(code, args, op);
      var (d, next) := ReadDuration(code, pc1);
      (SetColor(c, d), next)
    else if op in {0x08, 0x09, 0x0A, 0x0B, 0x11} then
      var (c, pc1) := ReadColor(code, args, op);
      var (d, next) := ReadDuration(code, pc1);
      (FadeTo(c, d), next)
    else if op == 0x0C then (LoopBegin(ByteAt(code, args)), Next(code, args))
    else if op == 0x0D then (LoopEnd, args)
    else if op == 0x0E then (ResetClock, args)
    else if op == 0x12 then var (a, next) := ReadVarint(code, args); (Jump(a), next)
    else if op == 0x13 then ReadTriggeredJump(code, args)
    else if op == 0x14 then (SetPyro(ByteAt(code, args)), Next(code, args))
    else if op == 0x15 then (SetPyroAll(ByteAt(code, args)), Next(code, args))
    else (Unknown, args)
  }

  function ReadColor(code: seq<Byte>, pc: nat, op: Byte): (Rgb, nat) {
    if op == 0x04 || op == 0x08 then ReadRgb(code, pc)
    else if op == 0x05 || op == 0x09 then ReadGray(code, pc)
    else if op == 0x06 || op == 0x0A then (BLACK, pc)
    else if op == 0x07 || op == 0x0B then (WHITE, pc)
    else (BLACK, ReadRgb(code, pc).1)
  }

  function ReadTriggeredJump(code: seq<Byte>, pc: nat): (Command, nat) {
    var params := ByteAt(code, pc);
    var pc1 := Next(code, pc);
    if params / 16 % 4 == 0 then (TriggeredJump(true), pc1)
    else var (a, next) := ReadVarint(code, pc1); (TriggeredJump(a < ADDRESS_LIMIT), next)
  }

  // ---- transitions ----

  datatype Fade = Fade(active: bool, start: nat, duration: nat)

  /** Linear progress between 0 and 1. */
  function Progress(f: Fade, clock: nat): (p: real)
    ensures 0.0 <= p <= 1.0
  {
    if clock < f.start then 0.0
    else if f.duration == 0 then 1.0
    else if clock - f.start >= f.duration then 1.0
    else ProgressInside(clock - f.start, f.duration)
  }

  function ProgressInside(elapsed: nat, duration: nat): (p: real)
    requires elapsed < duration
    ensures 0.0 <= p < 1.0
  {
    elapsed as real / duration as real
  }

  /** Clamped to the range of a byte and truncated. */
  function Clamp(v: real): Byte {
    if v < 0.0 then 0 else if v > 255.0 then 255 else v.Floor
  }

  /** One channel of a linear interpolation. */
  function Mix(first: Byte, second: Byte, ratio: real): Byte { Clamp(Blend(first, second, ratio)) }

  function Blend(first: Byte, second: Byte, ratio: real): real {
    first as real + (second - first) as real * ratio
  }

  function Interpolate(first: Rgb, second: Rgb, ratio: real): Rgb {
    Rgb(Mix(first.red, second.red, ratio),
        Mix(first.green, second.green, ratio),
        Mix(first.blue, second.blue, ratio))
  }

  // ---- the machine ----

  /** One open loop: where its body starts and the iterations left, the current one
      included; zero iterations left means a loop without end. */
  datatype LoopItem = LoopItem(start: nat, left: Byte)

  /** Everything but the program counter and the loop stack: clock, schedule and outputs. */
  datatype Show = Show(
    ended: bool,
    resetPending: bool,
    origin: nat,
    elapsed: nat,
    wakeup: nat,
    started: nat,
    color: Rgb,
    pyro: Byte,
    fade: Fade,
    startColor: Rgb,
    endColor: Rgb
  )

  datatype Vm = Vm(pc: nat, loops: seq<LoopItem>, show: Show)

  /** Waiting never moves the wakeup time backwards. */
  function Delay(s: Show, absolute: nat): Show {
    s.(wakeup := if s.wakeup < absolute then absolute else s.wakeup)
  }

  function DelayBy(s: Show, msec: nat): Show {
    Delay(s.(elapsed := s.elapsed + msec), s.origin + s.elapsed + msec)
  }

  /** The elapsed time never goes below zero here: the wakeup time is at least
      origin + deadline. */
  function WaitFor(s: Show, deadline: nat): Show {
    var s' := Delay(s, s.origin + deadline);
    s'.(elapsed := s'.wakeup - s.origin)
  }

  function SetClockOrigin(s: Show, timestamp: nat): Show {
    s.(origin := timestamp, elapsed := 0)
  }

  function Paint(s: Show, color: Rgb): Show { s.(color := color, startColor := color) }

  /** The fade starts at once, and its length is taken modulo the width of the clock. */
  function StartFade(s: Show, color: Rgb, msec: nat): Show {
    var s' := DelayBy(s, msec).(endColor := color);
    var f := Fade(true, s.started, (s'.wakeup - s.started) % ULONG_MODULUS);
    s'.(color := Interpolate(s'.startColor, color, Progress(f, s.started)),
        fade := f.(active := Progress(f, s.started) < 1.0))
  }

  /** Bit operations on seven-bit channel masks. */
  function BitwiseOr(a: Byte, b: Byte, bits: nat): (r: Byte)
    requires bits <= 7
    ensures r < Varint.Pow2(bits)
  {
    if bits == 0 then 0
    else
      var r := BitwiseOr(a / 2, b / 2, bits - 1);
      Pow2Small(bits);
      2 * r + (if a % 2 == 1 || b % 2 == 1 then 1 else 0)
  }

  function BitwiseAndNot(a: Byte, b: Byte, bits: nat): (r: Byte)
    requires bits <= 7
    ensures r < Varint.Pow2(bits)
  {
    if bits == 0 then 0
    else
      var r := BitwiseAndNot(a / 2, b / 2, bits - 1);
      Pow2Small(bits);
      2 * r + (if a % 2 == 1 && b % 2 == 0 then 1 else 0)
  }

  lemma Pow2Small(bits: nat)
    requires 1 <= bits <= 7
    ensures Varint.Pow2(bits) == 2 * Varint.Pow2(bits - 1) <= 128
  {
    Varint.Pow2Monotone(bits, 7);
    Varint.Pow2Add7(0);
  }

  /** The top bit of the mask says whether the channels in the other seven are switched on
      or off. */
  function UpdatePyro(channels: Byte, mask: Byte): Byte {
    if mask >= 128 then BitwiseOr(channels, mask % 128, 7) else BitwiseAndNot(channels, mask, 7)
  }

  /** Whether a channel is on. */
  predicate Channel(channels: nat, i: nat)
    decreases i
  {
    if i == 0 then channels % 2 == 1 else Channel(channels / 2, i - 1)
  }

  lemma {:induction false} BitwiseChannels(a: Byte, b: Byte, bits: nat, i: nat)
    requires i < bits <= 7
    ensures Channel(BitwiseOr(a, b, bits), i) <==> Channel(a, i) || Channel(b, i)
    ensures Channel(BitwiseAndNot(a, b, bits), i) <==> Channel(a, i) && !Channel(b, i)
    decreases bits
  {
    Halves(a, b, bits);
    hide BitwiseOr, BitwiseAndNot;
    if i > 0 { BitwiseChannels(a / 2, b / 2, bits - 1, i - 1); }
  }

  lemma Halves(a: Byte, b: Byte, bits: nat)
    requires 1 <= bits <= 7
    ensures var r := BitwiseOr(a, b, bits);
            r / 2 == BitwiseOr(a / 2, b / 2, bits - 1) && (r % 2 == 1 <==> a % 2 == 1 || b % 2 == 1)
    ensures var r := BitwiseAndNot(a, b, bits);
            r / 2 == BitwiseAndNot(a / 2, b / 2, bits - 1) && (r % 2 == 1 <==> a % 2 == 1 && b % 2 == 0)
  {
  }

  /** A higher bit leaves the channels below it alone. */
  lemma {:induction false} HigherBit(mask: nat, bits: nat, i: nat)
    requires i < bits
    ensures Channel(mask + Varint.Pow2(bits), i) <==> Channel(mask, i)
    decreases bits
  {
    var p := Varint.Pow2(bits - 1);
    assert Varint.Pow2(bits) == 2 * p;
    if i > 0 { HigherBit(mask / 2, bits - 1, i - 1); }
  }

  /** A mask switches exactly the channels it names, all of them on or all of them off. */
  lemma PyroMask(channels: Byte, mask: Byte, i: nat)
    requires i < 7
    ensures Channel(UpdatePyro(channels, mask), i)
            <==> if Channel(mask, i) then mask >= 128 else Channel(channels, i)
    ensures UpdatePyro(channels, mask) < 128
  {
    hide Channel, BitwiseOr, BitwiseAndNot;
    Pow2Of7();
    hide Varint.Pow2;
    if mask >= 128 {
      HigherBit(mask - 128, 7, i);
      BitwiseChannels(channels, mask % 128, 7, i);
    } else {
      BitwiseChannels(channels, mask, 7, i);
    }
  }

  lemma Pow2Of7()
    ensures Varint.Pow2(7) == 128
  {
    Varint.Pow2Add7(0);
  }

  /** The effect of a command on the outputs and the schedule. */
  function Effect(s: Show, c: Command): Show {
    match c
    case End | Unknown => s.(ended := true)
    case Nop | LoopBegin(_) | LoopEnd => s
    case Sleep(d) => DelayBy(s, d)
    case WaitUntil(d) => WaitFor(s, d)
    case SetColor(c, d) => Paint(DelayBy(s, d), c)
    case FadeTo(c, d) => StartFade(s, c, d)
    case ResetClock => SetClockOrigin(s, s.started)
    case Jump(a) => s.(ended := s.ended || a >= ADDRESS_LIMIT)
    case TriggeredJump(ok) => s.(ended := s.ended || !ok)
    case SetPyro(m) => s.(pyro := UpdatePyro(s.pyro, m))
    case SetPyroAll(v) => s.(pyro := v % 128)
  }

  /** The effect of a command on the loop stack and the program counter, which already
      stands at `next`. */
  function Control(next: nat, loops: seq<LoopItem>, c: Command): (nat, seq<LoopItem>) {
    match c
    case LoopBegin(n) => (next, loops + [LoopItem(next, n)])
    case LoopEnd =>
      if loops == [] then (next, loops)
      else
        var top := loops[|loops| - 1];
        if top.left == 0 then (top.start, loops)
        else if top.left == 1 then (next, loops[..|loops| - 1])
        else (top.start, loops[|loops| - 1 := LoopItem(top.start, top.left - 1)])
    case Jump(a) => if a < ADDRESS_LIMIT then (a, []) else (next, loops)
    case _ => (next, loops)
  }

  function Execute(code: seq<Byte>, vm: Vm): Vm {
    var (c, next) := Decode(code, vm.pc);
    var (pc, loops) := Control(next, vm.loops, c);
    Vm(pc, loops, Effect(vm.show, c))
  }

  /** A pending clock reset takes effect at the first step after it. */
  function ApplyReset(s: Show, now: nat): Show {
    if s.resetPending then Paint(SetClockOrigin(s, now), BLACK).(resetPending := false, wakeup := now)
    else s
  }

  /** An active fade is evaluated; when it is over, the next one starts from its end. */
  function StepFade(s: Show, now: nat): Show {
    if !s.fade.active then s
    else
      var p := Progress(s.fade, now);
      s.(color := Interpolate(s.startColor, s.endColor, p),
         fade := s.fade.(active := p < 1.0),
         startColor := if p < 1.0 then s.startColor else s.endColor)
  }

  /** One call of the executor's step function. */
  function Step(code: seq<Byte>, vm: Vm, now: nat): Vm {
    var s := ApplyReset(vm.show, now);
    if s.ended then vm.(show := s.(wakeup := now + IDLE_MSEC))
    else
      var s' := StepFade(s, now);
      if now >= s'.wakeup then Execute(code, vm.(show := s'.(started := now)))
      else vm.(show := s')
  }

  /** Back to the start of the program; the clock is reset by the next step. */
  function Rewind(code: seq<Byte>, vm: Vm): Vm {
    Vm(0, [], vm.show.(ended := |code| == 0, resetPending := true, color := BLACK, pyro := 0,
                       fade := vm.show.fade.(active := false)))
  }

  // ---- what the two readers agree on ----

  /** Wherever the library's 32-bit parser succeeds, the executor's reader yields the same
      number and stops at the same offset. */
  lemma ReadersAgree(code: seq<Byte>, pc: nat)
    requires Varint.Parse(code, pc).Number?
    ensures ReadVarint(code, pc) == (Varint.Parse(code, pc).value, Varint.Parse(code, pc).next)
  {
  }

  /** Where the parser reports a cut-short number, the executor reads on as if an END byte
      followed the store: the same number, with the index left at the end of the store. */
  lemma ReadersAtEnd(code: seq<Byte>, pc: nat)
    requires pc < |code| && Varint.Parse(code, pc).Truncated?
    ensures ReadVarint(code + [0x00], pc).1 == |code| + 1
    ensures ReadVarint(code, pc) == (ReadVarint(code + [0x00], pc).0, |code|)
  {
    hide Varint.Value;
    Varint.TruncatedIff(code, pc);
    Varint.EndIs(code + [0x00], pc, |code|);
    Varint.ValueSnoc(code[pc..], 0x00);
    assert (code + [0x00])[pc..|code| + 1] == code[pc..] + [0x00];
  }

  // ---- the instruction set ----

  lemma ShortVarint(code: seq<Byte>, pc: nat)
    requires pc < |code| && code[pc] < 128
    ensures ReadVarint(code, pc) == (code[pc], pc + 1)
  {
    Varint.EndIs(code, pc, pc);
    assert code[pc..pc + 1] == [code[pc]];
    assert Varint.Value([code[pc]]) == code[pc] by { assert [code[pc]][1..] == []; }
  }

  /** The commands of the clock and of control flow; a duration d is so many 50ths of a second. */
  lemma ControlOpcodes(n: Byte)
    ensures Decode([0x00], 0).0 == End && Decode([0x01], 0).0 == Nop && Decode([], 0).0 == End
    ensures Decode([0x0C, n], 0) == (LoopBegin(n), 2) && Decode([0x0D], 0).0 == LoopEnd
    ensures Decode([0x0E], 0).0 == ResetClock
    ensures Decode([0x14, n], 0) == (SetPyro(n), 2) && Decode([0x15, n], 0) == (SetPyroAll(n), 2)
    ensures n < 128 ==> Decode([0x02, n], 0) == (Sleep(20 * n), 2)
    ensures n < 128 ==> Decode([0x03, n], 0) == (WaitUntil(20 * n), 2)
    ensures n < 128 ==> Decode([0x12, n], 0) == (Jump(n), 2)
  {
    if n < 128 {
      ShortVarint([0x02, n], 1);
      ShortVarint([0x03, n], 1);
      ShortVarint([0x12, n], 1);
    }
    hide ReadVarint, ReadColor, ReadTriggeredJump;
  }

  /** The commands that set a colour, and those that fade to one. */
  lemma ColorOpcodes(r: Byte, g: Byte, b: Byte, d: Byte)
    requires d < 128
    ensures Decode([0x04, r, g, b, d], 0) == (SetColor(Rgb(r, g, b), 20 * d), 5)
    ensures Decode([0x05, g, d], 0) == (SetColor(Rgb(g, g, g), 20 * d), 3)
    ensures Decode([0x06, d], 0) == (SetColor(Rgb(0, 0, 0), 20 * d), 2)
    ensures Decode([0x07, d], 0) == (SetColor(Rgb(255, 255, 255), 20 * d), 2)
    ensures Decode([0x08, r, g, b, d], 0) == (FadeTo(Rgb(r, g, b), 20 * d), 5)
    ensures Decode([0x09, g, d], 0) == (FadeTo(Rgb(g, g, g), 20 * d), 3)
    ensures Decode([0x0A, d], 0) == (FadeTo(Rgb(0, 0, 0), 20 * d), 2)
    ensures Decode([0x0B, d], 0) == (FadeTo(Rgb(255, 255, 255), 20 * d), 2)
  {
    ShortVarint([0x04, r, g, b, d], 4);
    ShortVarint([0x05, g, d], 2);
    ShortVarint([0x06, d], 1);
    ShortVarint([0x07, d], 1);
    ShortVarint([0x08, r, g, b, d], 4);
    ShortVarint([0x09, g, d], 2);
    ShortVarint([0x0A, d], 1);
    ShortVarint([0x0B, d], 1);
    hide ReadVarint, ReadTriggeredJump;
  }
}
