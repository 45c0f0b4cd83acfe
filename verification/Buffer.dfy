// The growable byte buffer: storage with a used part, or a view that may not change size.
module Buffers {
  import opened Basics

  /** The largest value of a size. */
  const SIZE_MAX: nat := 0xFFFF_FFFF_FFFF_FFFF

  function Zeros(n: nat): (z: seq<Byte>)
    ensures |z| == n && forall i :: 0 <= i < n ==> z[i] == 0
  {
    seq(n, _ => 0)
  }

  /** One turn of the loop that looks for a large enough capacity. */
  function Grow(capacity: nat): nat {
    if capacity <= SIZE_MAX / 2 then capacity * 2 else SIZE_MAX - 1
  }

  class Buffer {
    /** The storage; its length is the capacity. */
    var store: array<Byte>
    /** How many bytes of the storage are in use. */
    var used: nat
    var owned: bool

    ghost predicate Valid()
      reads this
    {
      used <= store.Length <= SIZE_MAX
      && (owned ==> store.Length >= 1)
      && (!owned ==> used == store.Length)
    }

    ghost function Contents(): seq<Byte>
      requires Valid()
      reads this, store
    {
      store[..used]
    }

    /** An owned buffer of zeros; its capacity is at least one. */
    constructor Init(initialSize: nat)
      requires initialSize <= SIZE_MAX
      ensures Valid() && fresh(store) && owned
      ensures Contents() == Zeros(initialSize)
    {
      var n := if initialSize > 1 then initialSize else 1;
      store := new Byte[n](_ => 0);
      used, owned := initialSize, true;
    }

    /** A view into an existing array. */
    constructor InitView(bytes: array<Byte>)
      requires bytes.Length <= SIZE_MAX
      ensures Valid() && store == bytes && !owned && Contents() == bytes[..]
    {
      store, used, owned := bytes, bytes.Length, false;
    }

    method Size() returns (n: nat)
      requires Valid()
      ensures n == |Contents()|
    {
      n := used;
    }

    /** Gives the storage the new capacity, moving what is kept; a view refuses. */
    method Realloc(newCapacity: nat) returns (status: Status)
      requires Valid() && newCapacity <= SIZE_MAX
      modifies this
      ensures Valid() && owned == old(owned)
      ensures status == Success ==> store.Length == (if newCapacity < 1 then 1 else newCapacity)
      ensures status == Success ==> used == Min(old(used), store.Length)
      ensures status == Success ==> Contents() == old(Contents())[..used]
      ensures status == Success || (status == Failure && !owned && store == old(store) && used == old(used))
      ensures owned ==> status == Success
      ensures store == old(store) || fresh(store)
    {
      var capacity := if newCapacity < 1 then 1 else newCapacity;
      if store.Length != capacity {
        if !owned { return Failure; }
        var moved := new Byte[capacity];  // what lies beyond the kept bytes is arbitrary
        var kept := if used <= capacity then used else capacity;
        forall i | 0 <= i < kept {
          moved[i] := store[i];
        }
        store, used := moved, kept;
      }
      status := Success;
    }

    /** Makes room for `minSpace` more bytes, doubling the capacity as often as needed. */
    method EnsureFreeSpace(minSpace: nat) returns (status: Status)
      requires Valid() && minSpace <= SIZE_MAX
      requires minSpace == 0 || store.Length > 0
      modifies this
      ensures Valid() && owned == old(owned) && Contents() == old(Contents())
      ensures status == Success ==> used + minSpace <= store.Length || minSpace == 0
      ensures status != Success ==> store == old(store)
      ensures status == Success <==> minSpace == 0 || old(Fits(minSpace))
      ensures store == old(store) || fresh(store)
    {
      if minSpace == 0 { return Success; }
      var desired := store.Length;
      var newSize := used + minSpace;
      if newSize > SIZE_MAX { return ENoMem; }  // the sum of two sizes wrapped around
      while newSize > desired
        invariant store.Length <= desired <= SIZE_MAX
        invariant desired == store.Length || desired <= SIZE_MAX - 1
        decreases SIZE_MAX - desired
      {
        if desired >= SIZE_MAX - 1 { return ENoMem; }
        desired := Grow(desired);
      }
      status := Realloc(desired);
    }

    /** There is room already, or the buffer may grow to it. */
    ghost predicate Fits(extra: nat)
      reads this
    {
      used + extra <= store.Length || (owned && used + extra <= SIZE_MAX - 1)
    }

    /** Appends the first `n` bytes of another array. */
    method AppendBytes(bytes: array<Byte>, n: nat) returns (status: Status)
      requires Valid() && n <= bytes.Length <= SIZE_MAX && bytes != store
      requires n == 0 || store.Length > 0
      modifies this, store
      ensures Valid() && owned == old(owned)
      ensures status == Success <==> n == 0 || old(Fits(n))
      ensures Contents() == old(Contents()) + if status == Success then old(bytes[..n]) else []
      ensures store == old(store) || fresh(store)
    {
      status := EnsureFreeSpace(n);
      if status != Success { return; }
      forall i | 0 <= i < n {
        store[used + i] := bytes[i];
      }
      used := used + n;
    }

    method AppendByte(b: Byte) returns (status: Status)
      requires Valid() && store.Length > 0
      modifies this, store
      ensures Valid() && owned == old(owned)
      ensures status == Success <==> old(Fits(1))
      ensures Contents() == old(Contents()) + if status == Success then [b] else []
      ensures store == old(store) || fresh(store)
    {
      var one := new Byte[1](_ => b);
      assert one[..1] == [b];
      status := AppendBytes(one, 1);
    }

    /** Appends another buffer's contents. */
    method Concat(other: Buffer) returns (status: Status)
      requires Valid() && other.Valid() && other != this && other.store != store
      requires other.used == 0 || store.Length > 0
      modifies this, store
      ensures Valid() && owned == old(owned)
      ensures status == Success <==> other.used == 0 || old(Fits(other.used))
      ensures Contents() == old(Contents()) + if status == Success then old(other.Contents()) else []
    {
      status := AppendBytes(other.store, other.used);
    }

    /** Appends zeros; the room asked for is the whole new size on top of the old one, and that
        size wraps around. Where it does, the call must be one that is refused, for otherwise
        the zeros do not fit the storage (see ExtensionCovered). */
    method ExtendWithZeros(n: nat) returns (status: Status)
      requires Valid() && n <= SIZE_MAX
      requires used + n == 0 || store.Length > 0
      requires used + n <= SIZE_MAX || Refused(Wrapped(used + n))
      modifies this, store
      ensures Valid() && owned == old(owned)
      ensures status == Success <==> old(!Refused(Wrapped(used + n)))
      ensures Contents() == old(Contents()) + if status == Success then Zeros(n) else []
      ensures store == old(store) || fresh(store)
    {
      ghost var kept := Contents();
      hide Wrapped, Fits;
      status := EnsureFreeSpace(Wrapped(used + n));
      if status != Success { return; }
      ExtensionCovered(used, n, store.Length);
      forall i | 0 <= i < n {
        store[used + i] := 0;
      }
      used := used + n;
      WithZeros(kept, Contents(), n);
    }

    /** The room that EnsureFreeSpace does not grant. */
    ghost predicate Refused(extra: nat)
      reads this
    {
      extra != 0 && !Fits(extra)
    }

    /** Sets the size; bytes that come into use are zero, whatever the storage held before. */
    method Resize(newSize: nat) returns (status: Status)
      requires Valid() && newSize <= SIZE_MAX
      modifies this, store
      ensures Valid() && owned == old(owned)
      ensures status == if owned then Success else Failure
      ensures Contents() == if !owned then old(Contents())
                            else if newSize <= old(used) then old(Contents())[..newSize]
                            else old(Contents()) + Zeros(newSize - old(used))
      ensures store == old(store) || fresh(store)
    {
      if !owned { return Failure; }
      if used < newSize {
        status := Realloc(newSize);
        forall i | used <= i < newSize {
          store[i] := 0;
        }
      }
      used := newSize;
      status := Success;
    }

    method Clear() returns (status: Status)
      requires Valid()
      modifies this, store
      ensures Valid() && owned == old(owned)
      ensures status == if owned then Success else Failure
      ensures Contents() == if owned then [] else old(Contents())
    {
      status := Resize(0);
    }

    /** Gives back the capacity that is not in use. */
    method Prune() returns (status: Status)
      requires Valid()
      modifies this
      ensures Valid() && owned == old(owned)
      ensures Contents() == old(Contents())
      ensures owned ==> status == Success && store.Length == (if used < 1 then 1 else used)
    {
      status := Realloc(used);
    }
  }

  // ---- where the growth loop departs from its purpose ----

  function Growing(capacity: nat, turns: nat): nat
    decreases turns
  {
    if turns == 0 then capacity else Growing(Grow(capacity), turns - 1)
  }

  /** The loop that looks for a capacity of at least `target` ends: it finds one or gives up
      at the top of the range. */
  ghost predicate GrowthEnds(capacity: nat, target: nat) {
    exists turns: nat :: Growing(capacity, turns) >= target || Growing(capacity, turns) >= SIZE_MAX - 1
  }

  /** It ends exactly when there is something to double: appending to a view of no bytes
      never returns. */
  lemma GrowthEndsIff(capacity: nat, target: nat)
    requires target > 0
    ensures GrowthEnds(capacity, target) <==> capacity > 0
  {
    if capacity == 0 {
      forall turns: nat ensures Growing(0, turns) == 0 { GrowingFromZero(turns); }
    } else {
      var turns := GrowingUp(capacity);
      assert Growing(capacity, turns) >= SIZE_MAX - 1;
    }
  }

  lemma {:induction false} GrowingFromZero(turns: nat)
    ensures Growing(0, turns) == 0
    decreases turns
  {
    if turns > 0 { GrowingFromZero(turns - 1); }
  }

  lemma {:induction false} GrowingUp(capacity: nat) returns (turns: nat)
    requires capacity > 0
    ensures Growing(capacity, turns) >= SIZE_MAX - 1
    decreases if capacity >= SIZE_MAX - 1 then 0 else SIZE_MAX - capacity
  {
    if capacity >= SIZE_MAX - 1 {
      turns := 0;
    } else {
      var rest := GrowingUp(Grow(capacity));
      turns := rest + 1;
    }
  }

  lemma WithZeros(before: seq<Byte>, after: seq<Byte>, n: nat)
    requires |after| == |before| + n && after[..|before|] == before
    requires forall i :: |before| <= i < |after| ==> after[i] == 0
    ensures after == before + Zeros(n)
  {
  }

  /** The sum of two sizes, as the machine computes it. */
  function Wrapped(sum: nat): (w: nat)
    ensures w <= SIZE_MAX && (sum == 0 ==> w == 0)
  {
    sum % (SIZE_MAX + 1)
  }

  lemma WrapsOnce(size: nat, n: nat)
    requires size <= SIZE_MAX && n <= SIZE_MAX
    ensures Wrapped(size + n) == if size + n <= SIZE_MAX then size + n else size + n - SIZE_MAX - 1
  {
  }

  /** Room for the wrapped sum, which is what a successful EnsureFreeSpace has provided, is room
      for the extension exactly when the sum of size and extension does not wrap. */
  lemma ExtensionCovered(size: nat, n: nat, capacity: nat)
    requires size <= capacity <= SIZE_MAX && n <= SIZE_MAX
    requires var w := Wrapped(size + n); w == 0 || size + w <= capacity
    ensures size + n <= capacity <==> size + n <= SIZE_MAX
  {
    WrapsOnce(size, n);
  }

  /** One byte in use and an extension by the largest size: no room at all is asked for. */
  lemma ExtensionDeparts()
    ensures Wrapped(1 + SIZE_MAX) == 0
  {
  }
}
