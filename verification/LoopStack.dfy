// The executor's loop stack: a fixed array, a count and a pointer to the topmost item.
module LoopStacks {
  import opened Basics
  import opened LightVm

  class LoopStack {
    const items: array<LoopItem>
    var numLoops: nat
    /** Index of the topmost item, or None for the null pointer. */
    var top: Option<nat>

    ghost predicate Valid()
      reads this
    {
      items.Length == MAX_LOOP_DEPTH && numLoops <= MAX_LOOP_DEPTH
      && top == (if numLoops == 0 then None else Some(numLoops - 1))
    }

    ghost function Contents(): seq<LoopItem>
      requires Valid()
      reads this, items
    {
      items[..numLoops]
    }

    constructor ()
      ensures Valid() && fresh(items) && Contents() == []
    {
      items := new LoopItem[MAX_LOOP_DEPTH](_ => LoopItem(0, 0));
      numLoops, top := 0, None;
    }

    method Clear()
      requires Valid()
      modifies this
      ensures Valid() && Contents() == []
    {
      top := None;
      numLoops := 0;
    }

    /** The full check lets a fifth loop through (see GuardOffByOne), so the callers' nesting
        limit is what keeps the write inside the array. */
    method Begin(location: nat, iterations: Byte) returns (ok: bool)
      requires Valid() && SlotInBounds(top)
      modifies this, items
      ensures Valid() && ok
      ensures Contents() == old(Contents()) + [LoopItem(location, iterations)]
    {
      if GuardRejects(top) {
        return false;
      }
      var slot := Slot(top);
      top := Some(slot);
      numLoops := numLoops + 1;
      items[slot] := LoopItem(location, iterations);
      ok := true;
    }

    /** Where to continue: the start of the innermost loop, or None to go on. */
    method End() returns (location: Option<nat>)
      requires Valid()
      modifies this, items
      ensures Valid()
      ensures forall next: nat ::
                Control(next, old(Contents()), LoopEnd)
                == (if location.Some? then location.value else next, Contents())
    {
      if top.None? { return None; }
      var i := top.value;
      var left := items[i].left;
      if left == 0 {
        location := Some(items[i].start);
      } else if left == 1 {
        items[i] := items[i].(left := 0);
        top := if i == 0 then None else Some(i - 1);
        numLoops := numLoops - 1;
        location := None;
        assert Contents() == old(Contents())[..numLoops];
      } else {
        items[i] := items[i].(left := left - 1);
        location := Some(items[i].start);
        assert Contents() == old(Contents())[i := LoopItem(items[i].start, left - 1)];
      }
    }
  }

  /** The index that starting another loop writes to. */
  function Slot(top: Option<nat>): nat {
    if top.Some? then top.value + 1 else 0
  }

  /** The test that is meant to report a full stack; the null pointer passes it. */
  predicate GuardRejects(top: Option<nat>) {
    top.Some? && top.value >= MAX_LOOP_DEPTH
  }

  predicate SlotInBounds(top: Option<nat>) { Slot(top) < MAX_LOOP_DEPTH }

  /** The guard and the array bound disagree exactly when the stack holds its documented
      maximum of four loops: the guard accepts the write and the array has no slot for it. */
  lemma GuardOffByOne(numLoops: nat)
    requires numLoops <= MAX_LOOP_DEPTH
    ensures var top := if numLoops == 0 then None else Some(numLoops - 1);
            (SlotInBounds(top) <==> numLoops < MAX_LOOP_DEPTH)
            && !GuardRejects(top)
  {
  }
}
