// The seekable player as an object: an executor that only runs forward, rewound and replayed.
module LightPlayback {
  import opened Basics
  import opened Iteration
  import opened LightVm
  import opened LightProgram
  import opened LightSchedule
  import opened LightPlayer
  import opened LightSeek
  import opened LightLiveness
  import opened LightExecutor

  class BytecodePlayer {
    const executor: CommandExecutor
    var currentTimestamp: nat
    var nextTimestamp: nat
    /** Index of the player in the nominal run of its program. */
    ghost var index: nat

    ghost function Repr(): set<object>
      reads this, executor
    {
      {this} + executor.Repr()
    }

    ghost function Code(): seq<Byte>
      reads this, executor
    {
      executor.Code()
    }

    ghost function State(): Player
      requires executor.Valid()
      reads this, executor, executor.loopStack, executor.loopStack.items, executor.transition,
            executor.store
    {
      Player(executor.State(), currentTimestamp, nextTimestamp)
    }

    ghost predicate Valid()
      reads this, executor, executor.loopStack, executor.loopStack.items, executor.transition,
            executor.store
    {
      executor.Valid() && this !in executor.Repr() && executor.store != null
      && Live(Code()) && AlwaysRoom(Code()) && Located(Code(), State(), index)
    }

    /** A player that is given its program before anything is played. */
    constructor (store: BytecodeStore)
      requires Live(store.data) && AlwaysRoom(store.data)
      modifies store
      ensures Valid() && executor.store == store && fresh(Repr() - {store})
      ensures State() == NewPlayer(store.data)
    {
      executor := new CommandExecutor();
      currentTimestamp, nextTimestamp, index := 0, 0, 0;
      new;
      var _ := executor.Step(0);
      executor.SetBytecodeStore(store);
      NewPlayerLocated(store.data);
    }

    /** Moves the playhead. The first ensures says what every seek does; the second what it
        shows, wherever no zero-duration command is due at the target. */
    method Seek(target: nat) returns (ended: bool, next: nat)
      requires Valid()
      modifies Repr()
      ensures Valid() && Code() == old(Code()) && executor.store == old(executor.store)
      ensures State() == LightPlayer.Seek(Code(), old(State()), target)
      ensures ended == State().vm.show.ended && next == State().next && currentTimestamp == target
      ensures next >= target
      ensures forall d: nat :: IsDueIndex(Code(), target, d) && !ZeroDurationDue(Code(), d, target) ==>
                Seen(State().vm) == Seen(LightVm.Step(Code(), Nominal(Code(), d), target))
    {
      hide Located, Nominal, LightVm.Step, Live, AlwaysRoom, Lap, Land, LightPlayer.Seek,
           IsArrival, Rewind, Iterate, Lapper, IsDueIndex, ZeroDurationDue;
      ghost var code, p, n := Code(), State(), index;
      if target < currentTimestamp {
        Rewound();
      }
      ghost var b := State();
      ghost var turns := Turns(code, b, index, target);
      ghost var i := 0;
      NoTurn(code, b);
      while target > nextTimestamp
        invariant Valid() && Code() == code && executor.store == old(executor.store)
        invariant i <= turns && State() == Iterate(Lapper(code), b, i)
        invariant currentTimestamp <= target
        decreases turns - i
      {
        StillShort(code, b, target, turns, i);
        Advance();
        OneTurn(code, b, i);
        i := i + 1;
      }
      StillShort(code, b, target, turns, i);
      LandHere(target);
      SeekIs(code, p, target, i);
      SeekShows(code, p, n, target);
      LocatedShape(code, State(), index);
      ended, next := executor.ended, nextTimestamp;
    }

    method Rewound()
      requires Valid()
      modifies Repr()
      ensures Valid() && Code() == old(Code()) && executor.store == old(executor.store)
      ensures State() == Player(Rewind(Code(), old(State()).vm), 0, 0)
    {
      ghost var vm := executor.State();
      executor.RewindProgram();
      currentTimestamp := 0;
      nextTimestamp := 0;
      index := 0;
      RewoundIsLocated(Code(), vm);
    }

    /** One turn of the loop in Seek. */
    method Advance()
      requires Valid()
      modifies Repr()
      ensures Valid() && Code() == old(Code()) && executor.store == old(executor.store)
      ensures State() == Lap(Code(), old(State())) && currentTimestamp == old(nextTimestamp)
    {
      hide Located, Nominal, LightVm.Step, Live, AlwaysRoom, Decode;
      RoomHere(Code(), State(), index);
      LapLocated(Code(), State(), index);
      ghost var ended := Nominal(Code(), index).show.ended;
      var proposal := executor.Step(nextTimestamp);
      if proposal < nextTimestamp {
        proposal := nextTimestamp + 1;
      }
      currentTimestamp := nextTimestamp;
      nextTimestamp := proposal;
      index := if ended then index else index + 1;
    }

    method LandHere(target: nat)
      requires Valid() && currentTimestamp <= target <= nextTimestamp
      modifies Repr()
      ensures Valid() && Code() == old(Code()) && executor.store == old(executor.store)
      ensures State() == Land(Code(), old(State()), target) && currentTimestamp == target
    {
      hide Tracks, Nominal, LightVm.Step, Live, AlwaysRoom, Decode;
      RoomHere(Code(), State(), index);
      LandLocated(Code(), State(), index, target);
      ghost var v := Nominal(Code(), index).show;
      nextTimestamp := executor.Step(target);
      currentTimestamp := target;
      index := if !v.ended && target == v.wakeup then index + 1 else index;
    }
  }

  /** A located player stands at the program counter and loops of the nominal run. */
  lemma RoomHere(code: seq<Byte>, p: Player, n: nat)
    requires AlwaysRoom(code) && Located(code, p, n)
    ensures p.vm.show.ended || Room(code, p.vm)
  {
    hide Nominal, Decode;
    LocatedShape(code, p, n);
    FadeKeepsSchedule(Nominal(code, n).show, p.current);
  }

  lemma Turns(code: seq<Byte>, p: Player, n: nat, t: nat) returns (k: nat)
    requires Live(code) && Located(code, p, n)
    ensures IsArrival(code, p, t, k)
  {
    hide Located, Nominal;
    assert Reaches(code, t);
    var last: nat :| DueTime(code, last) >= t;
    LoopEnds(code, p, n, t, last);
    k :| IsArrival(code, p, t, k);
  }

  lemma NoTurn(code: seq<Byte>, b: Player)
    ensures Iterate(Lapper(code), b, 0) == b
  {
  }

  lemma OneTurn(code: seq<Byte>, b: Player, i: nat)
    ensures Iterate(Lapper(code), b, i + 1) == Lap(code, Iterate(Lapper(code), b, i))
  {
    hide Lap;
    IterateSucc(Lapper(code), b, i);
  }

  /** The loop's guard holds exactly before the last turn. */
  lemma StillShort(code: seq<Byte>, b: Player, t: nat, turns: nat, i: nat)
    requires IsArrival(code, b, t, turns) && i <= turns
    ensures Iterate(Lapper(code), b, i).next < t <==> i < turns
  {
    hide Lapper, Iterate;
  }

  lemma SeekIs(code: seq<Byte>, p: Player, t: nat, k: nat)
    requires IsArrival(code, Begin(code, p, t), t, k)
    ensures LightPlayer.Seek(code, p, t) == Land(code, Iterate(Lapper(code), Begin(code, p, t), k), t)
  {
    hide Lapper, Land, Begin, Iterate;
    var b := Begin(code, p, t);
    forall k': nat | IsArrival(code, b, t, k') ensures k' == k { ArrivalUnique(code, b, t, k', k); }
  }

  lemma SeekShows(code: seq<Byte>, p: Player, n: nat, t: nat)
    requires Live(code) && Located(code, p, n)
    ensures forall d: nat :: IsDueIndex(code, t, d) && !ZeroDurationDue(code, d, t) ==>
              Seen(LightPlayer.Seek(code, p, t).vm) == Seen(LightVm.Step(code, Nominal(code, d), t))
  {
    hide Located, Nominal, LightPlayer.Seek, LightVm.Step, IsDueIndex, ZeroDurationDue;
    forall d: nat | IsDueIndex(code, t, d) && !ZeroDurationDue(code, d, t)
      ensures Seen(LightPlayer.Seek(code, p, t).vm) == Seen(LightVm.Step(code, Nominal(code, d), t))
    {
      SeekAnswer(code, p, n, t, d);
    }
  }
}
