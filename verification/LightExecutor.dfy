// The bytecode store, the transition and the command executor as mutable objects. Each
// method is proved against the functions of LightVm.dfy.
module LightExecutor {
  import opened Basics
  import opened LightVm
  import opened LoopStacks
  import Varint

  /** Bytecode held in an array; reading past the end yields END and does not move. */
  class BytecodeStore {
    const data: seq<Byte>
    var nextIndex: nat

    constructor (data: seq<Byte>)
      ensures this.data == data && nextIndex == 0
    {
      this.data, nextIndex := data, 0;
    }

    predicate Empty() { |data| == 0 }

    method NextByte() returns (b: Byte)
      modifies this
      ensures b == ByteAt(data, old(nextIndex)) && nextIndex == LightVm.Next(data, old(nextIndex))
    {
      if nextIndex < |data| {
        b := data[nextIndex];
        nextIndex := nextIndex + 1;
      } else {
        b := 0;
      }
    }

    method Seek(location: nat)
      modifies this
      ensures nextIndex == location
    {
      nextIndex := location;
    }

    method Rewind()
      modifies this
      ensures nextIndex == 0
    {
      nextIndex := 0;
    }
  }

  /** A colour transition in progress; the executor uses linear easing only. */
  class Transition {
    var active: bool
    var startTime: nat
    var duration: nat

    ghost function State(): Fade
      reads this
    {
      Fade(active, startTime, duration)
    }

    constructor ()
      ensures State() == Fade(false, 0, 0)
    {
      active, startTime, duration := false, 0, 0;
    }

    method Cancel()
      modifies this
      ensures State() == old(State()).(active := false)
    {
      active := false;
    }

    method Start(duration: nat, startTime: nat)
      modifies this
      ensures State() == Fade(true, startTime, duration)
    {
      this.startTime, this.duration, active := startTime, duration, true;
    }

    function ProgressPreEasing(clock: nat): (p: real)
      reads this
      ensures p == Progress(State(), clock)
    {
      if clock < startTime then 0.0
      else if duration == 0 then 1.0
      else
        var result := (clock - startTime) as real / duration as real;
        Quotient(clock - startTime, duration);
        if result > 1.0 then 1.0 else result
    }

    /** The progress to hand to the colour handler, and whether the transition goes on. */
    method Step(clock: nat) returns (progress: real, more: bool)
      modifies this
      ensures progress == Progress(old(State()), clock) && more == (progress < 1.0)
      ensures State() == old(State()).(active := more)
    {
      progress := ProgressPreEasing(clock);
      active := progress < 1.0;
      more := active;
    }
  }

  lemma Quotient(a: nat, b: nat)
    requires b > 0
    ensures a as real / b as real >= 1.0 <==> a >= b
    ensures a as real / b as real == 1.0 <==> a == b
  {
    var q := a as real / b as real;
    assert q * b as real == a as real;
    if q > 1.0 { assert q * b as real > b as real; }
    if q < 1.0 { assert q * b as real < b as real; }
  }

  class CommandExecutor {
    var store: BytecodeStore?
    const loopStack: LoopStack
    const transition: Transition
    var currentColor: Rgb
    var currentPyroChannels: Byte
    var ended: bool
    var resetClockFlag: bool
    var cumulativeDurationSinceStart: nat
    var currentCommandStartTime: nat
    var lastClockResetTime: nat
    var nextWakeupTime: nat
    var startColor: Rgb
    var endColor: Rgb

    ghost function Repr(): set<object>
      reads this
    {
      {this, loopStack, loopStack.items, transition} + if store == null then {} else {store}
    }

    ghost predicate Valid()
      reads this, loopStack
    {
      loopStack.Valid()
    }

    ghost function Show(): LightVm.Show
      reads this, transition
    {
      LightVm.Show(ended, resetClockFlag, lastClockResetTime, cumulativeDurationSinceStart,
                   nextWakeupTime, currentCommandStartTime, currentColor, currentPyroChannels,
                   transition.State(), startColor, endColor)
    }

    ghost function Code(): seq<Byte>
      reads this
    {
      if store == null then [] else store.data
    }

    ghost function State(): Vm
      requires Valid()
      reads this, loopStack, loopStack.items, transition, store
    {
      Vm(if store == null then 0 else store.nextIndex, loopStack.Contents(), Show())
    }

    /** A fresh executor has no bytecode, so it has ended, and its clock waits to be reset. */
    constructor ()
      ensures Valid() && store == null && fresh(Repr())
      ensures State() == Vm(0, [], LightVm.Show(true, true, 0, 0, 0, 0, BLACK, 0,
                                               Fade(false, 0, 0), BLACK, BLACK))
    {
      store := null;
      loopStack := new LoopStack();
      transition := new Transition();
      currentColor, currentPyroChannels, ended, resetClockFlag := BLACK, 0, true, true;
      cumulativeDurationSinceStart, currentCommandStartTime := 0, 0;
      lastClockResetTime, nextWakeupTime := 0, 0;
      startColor, endColor := BLACK, BLACK;
    }

    method SetBytecodeStore(store: BytecodeStore)
      requires Valid()
      modifies Repr(), store
      ensures Valid() && this.store == store
      ensures State() == LightVm.Rewind(store.data, old(State()))
    {
      this.store := store;
      RewindProgram();
    }

    method RewindProgram()
      requires Valid()
      modifies Repr()
      ensures Valid() && store == old(store)
      ensures State() == LightVm.Rewind(Code(), old(State()))
    {
      if store != null {
        store.Rewind();
        ended := store.Empty();
      } else {
        ended := true;
      }
      loopStack.Clear();
      transition.Cancel();
      currentPyroChannels := 0;
      currentColor := BLACK;
      resetClockFlag := true;
    }

    // ---- reading the bytecode ----

    method NextByte() returns (b: Byte)
      requires store != null
      modifies store
      ensures b == ByteAt(Code(), old(store.nextIndex))
      ensures store.nextIndex == LightVm.Next(Code(), old(store.nextIndex))
    {
      b := store.NextByte();
    }

    method NextVarint() returns (result: nat)
      requires store != null
      modifies store
      ensures (result, store.nextIndex) == ReadVarint(Code(), old(store.nextIndex))
    {
      hide Varint.Value, Varint.Pow2, ReadVarint;
      ghost var code, from := Code(), store.nextIndex;
      var readByte: Byte := 128;
      var shift: nat := 0;
      result := 0;
      if from < |code| { NoGroups(code, from); }
      while readByte >= 128
        invariant from >= |code| ==> store.nextIndex == from && result == 0
        invariant from < |code| ==> from <= store.nextIndex <= |code|
        invariant from < |code| && readByte >= 128 ==>
                    (forall i :: from <= i < store.nextIndex ==> code[i] >= 128)
                    && result == Varint.Value(code[from..store.nextIndex])
                    && shift == 7 * (store.nextIndex - from)
        invariant readByte < 128 ==> (result, store.nextIndex) == ReadVarint(code, from)
        decreases if readByte < 128 then 0 else 1, |code| - store.nextIndex
      {
        ghost var pos := store.nextIndex;
        readByte := NextByte();
        result := result + (readByte % 128) * Varint.Pow2(shift);
        VarintStep(code, from, pos, readByte, shift);
        shift := shift + 7;
      }
    }

    method NextDuration() returns (msec: nat)
      requires store != null
      modifies store
      ensures (msec, store.nextIndex) == ReadDuration(Code(), old(store.nextIndex))
    {
      var halfFrames := NextVarint();
      msec := halfFrames * 20;
    }

    method NextRgb() returns (c: Rgb)
      requires store != null
      modifies store
      ensures (c, store.nextIndex) == ReadRgb(Code(), old(store.nextIndex))
    {
      var r := NextByte();
      var g := NextByte();
      var b := NextByte();
      c := Rgb(r, g, b);
    }

    // ---- the clock ----

    method DelayExecutionUntilAbsoluteTime(ms: nat)
      modifies this`nextWakeupTime
      ensures Show() == Delay(old(Show()), ms)
    {
      nextWakeupTime := if nextWakeupTime < ms then ms else nextWakeupTime;
    }

    method SetClockOriginToCurrentTimestamp(timestamp: nat)
      modifies this
      ensures store == old(store) && Show() == SetClockOrigin(old(Show()), timestamp)
    {
      lastClockResetTime := timestamp;
      var newCumulativeDuration := timestamp - lastClockResetTime;
      cumulativeDurationSinceStart := Max(newCumulativeDuration, 0);
    }

    method HandleDelayByte() returns (msec: nat)
      requires store != null
      modifies this, store
      ensures store == old(store)
      ensures (msec, store.nextIndex) == ReadDuration(Code(), old(store.nextIndex))
      ensures Show() == DelayBy(old(Show()), msec)
    {
      msec := NextDuration();
      cumulativeDurationSinceStart := cumulativeDurationSinceStart + msec;
      DelayExecutionUntilAbsoluteTime(lastClockResetTime + cumulativeDurationSinceStart);
    }

    method HandleWaitUntilCommand()
      requires store != null
      modifies this, store
      ensures store == old(store)
      ensures var (d, next) := ReadDuration(Code(), old(store.nextIndex));
              store.nextIndex == next && Show() == WaitFor(old(Show()), d)
    {
      var deadline := NextDuration();
      DelayExecutionUntilAbsoluteTime(lastClockResetTime + deadline);
      cumulativeDurationSinceStart := nextWakeupTime - lastClockResetTime;
    }

    // ---- colours ----

    method SetCurrentColorAndResetTransition(color: Rgb)
      modifies this
      ensures store == old(store) && Show() == Paint(old(Show()), color)
    {
      currentColor := color;
      startColor := color;
    }

    method HandleSetColor(color: Rgb)
      requires store != null
      modifies this, store
      ensures store == old(store)
      ensures var (d, next) := ReadDuration(Code(), old(store.nextIndex));
              store.nextIndex == next && Show() == Paint(DelayBy(old(Show()), d), color)
    {
      var _ := HandleDelayByte();
      SetCurrentColorAndResetTransition(color);
    }

    method FadeColorOfLEDStrip(color: Rgb)
      requires store != null
      modifies this, store, transition
      ensures store == old(store)
      ensures var (d, next) := ReadDuration(Code(), old(store.nextIndex));
              store.nextIndex == next && Show() == StartFade(old(Show()), color, d)
    {
      var now := currentCommandStartTime;
      var _ := HandleDelayByte();
      var actualDuration := (nextWakeupTime - now) % ULONG_MODULUS;
      endColor := color;
      transition.Start(actualDuration, now);
      var progress, _ := transition.Step(now);
      currentColor := Interpolate(startColor, endColor, progress);
    }

    // ---- control flow ----

    method HandleLoopBeginCommand()
      requires Valid() && store != null && SlotInBounds(loopStack.top)
      modifies store, loopStack, loopStack.items
      ensures Valid()
      ensures store.nextIndex == LightVm.Next(Code(), old(store.nextIndex))
      ensures (store.nextIndex, loopStack.Contents())
              == Control(store.nextIndex, old(loopStack.Contents()),
                         LoopBegin(ByteAt(Code(), old(store.nextIndex))))
    {
      var iterations := NextByte();
      var _ := loopStack.Begin(store.nextIndex, iterations);
    }

    method HandleLoopEndCommand()
      requires Valid() && store != null
      modifies store, loopStack, loopStack.items
      ensures Valid()
      ensures (store.nextIndex, loopStack.Contents())
              == Control(old(store.nextIndex), old(loopStack.Contents()), LoopEnd)
    {
      var jumpTo := loopStack.End();
      if jumpTo.Some? {
        store.Seek(jumpTo.value);
      }
    }

    method HandleJumpCommand()
      requires Valid() && store != null
      modifies this, store, loopStack
      ensures Valid() && store == old(store)
      ensures var (a, next) := ReadVarint(Code(), old(store.nextIndex));
              Show() == Effect(old(Show()), Jump(a))
              && (store.nextIndex, loopStack.Contents()) == Control(next, old(loopStack.Contents()), Jump(a))
    {
      var address := NextVarint();
      if address < ADDRESS_LIMIT {
        store.Seek(address);
        loopStack.Clear();
      } else {
        ended := true;
      }
    }

    /** With no signal source a free trigger slot is always found and never fires. */
    method HandleTriggeredJumpCommand()
      requires store != null
      modifies this, store
      ensures store == old(store)
      ensures var (c, next) := ReadTriggeredJump(Code(), old(store.nextIndex));
              store.nextIndex == next && Show() == Effect(old(Show()), c)
    {
      var params := NextByte();
      if params / 16 % 4 != 0 {
        var address := NextVarint();
        if address >= ADDRESS_LIMIT {
          ended := true;
        }
      }
    }

    method HandleSetPyroCommand()
      requires store != null
      modifies this, store
      ensures store == old(store)
      ensures store.nextIndex == LightVm.Next(Code(), old(store.nextIndex))
      ensures Show() == Effect(old(Show()), SetPyro(ByteAt(Code(), old(store.nextIndex))))
    {
      var mask := NextByte();
      currentPyroChannels := if mask >= 128 then BitwiseOr(currentPyroChannels, mask % 128, 7)
                             else BitwiseAndNot(currentPyroChannels, mask, 7);
    }

    method HandleSetPyroAllCommand()
      requires store != null
      modifies this, store
      ensures store == old(store)
      ensures store.nextIndex == LightVm.Next(Code(), old(store.nextIndex))
      ensures Show() == Effect(old(Show()), SetPyroAll(ByteAt(Code(), old(store.nextIndex))))
    {
      var values := NextByte();
      currentPyroChannels := values % 128;
    }

    /** A command that opens a loop needs a free slot in the loop stack. */
    ghost predicate RoomForNext()
      requires Valid()
      reads this, loopStack, loopStack.items, transition, store
    {
      Decode(Code(), State().pc).0.LoopBegin? ==> |State().loops| < MAX_LOOP_DEPTH
    }

    method ExecuteNextCommand()
      requires Valid() && store != null && !ended && RoomForNext()
      modifies Repr()
      ensures Valid() && store == old(store)
      ensures State() == Execute(Code(), old(State()))
    {
      hide ReadColor, ReadVarint, ReadDuration, ReadRgb;
      var op := NextByte();
      if op == 0x00 {
        ended := true;
      } else if op == 0x01 {
      } else if op == 0x02 {
        var _ := HandleDelayByte();
      } else if op == 0x03 {
        HandleWaitUntilCommand();
      } else if op in {0x04, 0x05, 0x06, 0x07, 0x10} {
        ExecuteSetColor(op);
      } else if op in {0x08, 0x09, 0x0A, 0x0B, 0x11} {
        ExecuteFade(op);
      } else if op == 0x0C {
        HandleLoopBeginCommand();
      } else if op == 0x0D {
        HandleLoopEndCommand();
      } else if op == 0x0E {
        SetClockOriginToCurrentTimestamp(currentCommandStartTime);
      } else if op == 0x12 {
        HandleJumpCommand();
      } else if op == 0x13 {
        HandleTriggeredJumpCommand();
      } else if op == 0x14 {
        HandleSetPyroCommand();
      } else if op == 0x15 {
        HandleSetPyroAllCommand();
      } else {
        ended := true;
      }
    }

    /** The colour arguments of a set or fade command. */
    method NextColor(op: Byte) returns (c: Rgb)
      requires store != null
      modifies store
      ensures (c, store.nextIndex) == ReadColor(Code(), old(store.nextIndex), op)
    {
      if op == 0x04 || op == 0x08 {
        c := NextRgb();
      } else if op == 0x05 || op == 0x09 {
        var v := NextByte();
        c := Rgb(v, v, v);
      } else if op == 0x06 || op == 0x0A {
        c := BLACK;
      } else if op == 0x07 || op == 0x0B {
        c := WHITE;
      } else {
        c := NextRgb();
        c := BLACK;
      }
    }

    method ExecuteSetColor(op: Byte)
      requires store != null
      modifies this, store
      ensures store == old(store)
      ensures var (c, pc1) := ReadColor(Code(), old(store.nextIndex), op);
              var (d, next) := ReadDuration(Code(), pc1);
              store.nextIndex == next && Show() == Effect(old(Show()), SetColor(c, d))
    {
      var c := NextColor(op);
      HandleSetColor(c);
    }

    method ExecuteFade(op: Byte)
      requires store != null
      modifies this, store, transition
      ensures store == old(store)
      ensures var (c, pc1) := ReadColor(Code(), old(store.nextIndex), op);
              var (d, next) := ReadDuration(Code(), pc1);
              store.nextIndex == next && Show() == Effect(old(Show()), FadeTo(c, d))
    {
      var c := NextColor(op);
      FadeColorOfLEDStrip(c);
    }

    /** Handles the active fade and, when it is due, one command. */
    method Step(now: nat) returns (wakeup: nat)
      requires Valid()
      requires store == null ==> ended
      requires ended || RoomForNext()
      modifies Repr()
      ensures Valid() && store == old(store)
      ensures State() == LightVm.Step(Code(), old(State()), now)
      ensures wakeup == State().show.wakeup
    {
      if resetClockFlag {
        SetClockOriginToCurrentTimestamp(now);
        SetCurrentColorAndResetTransition(BLACK);
        resetClockFlag := false;
        nextWakeupTime := now;
      }
      assert Show() == ApplyReset(old(Show()), now);
      if ended {
        nextWakeupTime := now + IDLE_MSEC;
        return nextWakeupTime;
      }
      StepTransition(now);
      if now >= nextWakeupTime {
        currentCommandStartTime := now;
        ExecuteNextCommand();
      }
      wakeup := nextWakeupTime;
    }

    method StepTransition(now: nat)
      modifies this, transition
      ensures store == old(store) && Show() == StepFade(old(Show()), now)
    {
      if transition.active {
        var progress, more := transition.Step(now);
        currentColor := Interpolate(startColor, endColor, progress);
        if !more {
          startColor := endColor;
        }
      }
    }
  }

  /** One turn of the reader's loop. */
  lemma NoGroups(code: seq<Byte>, from: nat)
    requires from < |code|
    ensures Varint.Value(code[from..from]) == 0
  {
    assert code[from..from] == [];
  }

  lemma VarintStep(code: seq<Byte>, from: nat, pos: nat, b: Byte, shift: nat)
    requires b == ByteAt(code, pos)
    requires if from >= |code| then pos == from
             else from <= pos <= |code| && shift == 7 * (pos - from)
                  && forall i :: from <= i < pos ==> code[i] >= 128
    ensures b >= 128 ==> from < |code| && pos < |code|
    ensures b >= 128 ==> Varint.Value(code[from..pos + 1])
                         == Varint.Value(code[from..pos]) + (b % 128) * Varint.Pow2(shift)
    ensures b < 128 && from >= |code| ==> b % 128 == 0 && ReadVarint(code, from) == (0, from)
    ensures b < 128 && from < |code| ==>
              ReadVarint(code, from)
              == (Varint.Value(code[from..pos]) + (b % 128) * Varint.Pow2(shift), LightVm.Next(code, pos))
  {
    hide Varint.Value, Varint.Pow2;
    if from < |code| {
      if pos < |code| {
        assert code[from..pos + 1] == code[from..pos] + [b];
        Varint.ValueSnoc(code[from..pos], b);
      }
      if b < 128 {
        Varint.EndIs(code, from, pos);
        assert pos == |code| ==> code[from..] == code[from..pos];
      }
    }
  }
}
