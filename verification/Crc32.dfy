// The checksum: table-driven, byte by byte; equal to the bit-serial division; and why no
// change confined to four consecutive bytes goes unnoticed.
module Crc32 {
  import opened Words
  import opened CrcTable

  // ---- the table-driven update ----

  function UpdateByte(crc: bv32, b: bv8): bv32 {
    Xor(Entry(LowByte(Xor(crc, Word(b)))), Shr8(crc))
  }

  function Update(crc: bv32, buf: seq<bv8>): bv32
    decreases |buf|
  {
    if buf == [] then crc else Update(UpdateByte(crc, buf[0]), buf[1..])
  }

  lemma UpdateNothing(crc: bv32)
    ensures Update(crc, []) == crc
  {
  }

  method ApCrc32Update(crc: bv32, buf: array<bv8>, size: nat) returns (r: bv32)
    requires size <= buf.Length
    ensures r == Update(crc, buf[..size])
  {
    hide UpdateByte;
    r := crc;
    var i := 0;
    while i < size
      invariant i <= size && Update(crc, buf[..size]) == Update(r, buf[i..size])
    {
      assert buf[i..size][0] == buf[i] && buf[i..size][1..] == buf[i + 1..size];
      r := UpdateByte(r, buf[i]);
      i := i + 1;
    }
  }

  // ---- the bit-serial reference ----

  /** Feeding one message bit to the shift register. */
  function FeedBit(crc: bv32, bit: bv32): bv32 { Shift(Xor(crc, bit)) }

  /** Feeding the given number of bits, the lowest one first. */
  function FeedBits(crc: bv32, h: bv32, bits: nat): bv32
    decreases bits
  {
    if bits == 0 then crc else FeedBits(FeedBit(crc, Lowest(h)), Half(h), bits - 1)
  }

  function BitSerial(crc: bv32, buf: seq<bv8>): bv32
    decreases |buf|
  {
    if buf == [] then crc else BitSerial(FeedBits(crc, Word(buf[0]), 8), buf[1..])
  }

  // ---- the algebra of one step ----

  /** A change above the lowest bit simply moves down. */
  lemma ShiftXor(x: bv32, h: bv32)
    requires !Odd(h)
    ensures Shift(Xor(x, h)) == Xor(Shift(x), Half(h))
  {
    hide Xor, Odd, Half;
    XorEven(x, h);
    XorHalf(x, h);
    XorSwap(Half(x), Half(h), POLYNOMIAL);
  }

  /** The step backwards. */
  function Unshift(y: bv32): bv32 {
    if y >> 31 == 1 then ((y ^ POLYNOMIAL) << 1) | 1 else y << 1
  }

  /** Every step is invertible. */
  lemma ShiftInvertible(x: bv32)
    ensures Unshift(Shift(x)) == x
    ensures Shift(Unshift(x)) == x
  {
    ForwardAndBack(x);
    BackAndForward(x);
  }

  lemma ForwardAndBack(x: bv32)
    ensures Unshift(Shift(x)) == x
  {
    assert POLYNOMIAL == 0xEDB88320;
    if x & 1 == 1 { OddBack(x); } else { EvenBack(x); }
  }

  lemma OddBack(x: bv32)
    requires x & 1 == 1
    ensures ((x >> 1) ^ 0xEDB88320) >> 31 == 1
    ensures ((((x >> 1) ^ 0xEDB88320) ^ 0xEDB88320) << 1) | 1 == x
  {
  }

  lemma EvenBack(x: bv32)
    requires x & 1 != 1
    ensures (x >> 1) >> 31 != 1 && (x >> 1) << 1 == x
  {
  }

  lemma BackAndForward(y: bv32)
    ensures Shift(Unshift(y)) == y
  {
    assert POLYNOMIAL == 0xEDB88320;
    if y >> 31 == 1 { OddForward(y); } else { EvenForward(y); }
  }

  lemma OddForward(y: bv32)
    requires y >> 31 == 1
    ensures (((y ^ 0xEDB88320) << 1) | 1) & 1 == 1
    ensures ((((y ^ 0xEDB88320) << 1) | 1) >> 1) ^ 0xEDB88320 == y
  {
  }

  lemma EvenForward(y: bv32)
    requires y >> 31 != 1
    ensures (y << 1) & 1 != 1 && (y << 1) >> 1 == y
  {
  }

  lemma ShiftInjective(x: bv32, y: bv32)
    requires Shift(x) == Shift(y)
    ensures x == y
  {
    hide Shift, Unshift;
    ShiftInvertible(x);
    ShiftInvertible(y);
  }

  lemma Shift8Injective(x: bv32, y: bv32)
    requires Shift8(x) == Shift8(y)
    ensures x == y
  {
    hide Shift;
    var x1, y1 := Shift(x), Shift(y);
    var x2, y2 := Shift(x1), Shift(y1);
    var x3, y3 := Shift(x2), Shift(y2);
    var x4, y4 := Shift(x3), Shift(y3);
    var x5, y5 := Shift(x4), Shift(y4);
    var x6, y6 := Shift(x5), Shift(y5);
    var x7, y7 := Shift(x6), Shift(y6);
    ShiftInjective(x7, y7);
    ShiftInjective(x6, y6);
    ShiftInjective(x5, y5);
    ShiftInjective(x4, y4);
    ShiftInjective(x3, y3);
    ShiftInjective(x2, y2);
    ShiftInjective(x1, y1);
    ShiftInjective(x, y);
  }

  /** A change in the upper three bytes moves down by one byte. */
  lemma Shift8Xor(x: bv32, h: bv32)
    requires LowClear(h)
    ensures Shift8(Xor(x, h)) == Xor(Shift8(x), Shr8(h))
  {
    hide Shift, Xor, Half, Odd, LowClear, Shr8;
    EightHalves(h);
    var x1, h1 := Shift(x), Half(h);
    var x2, h2 := Shift(x1), Half(h1);
    var x3, h3 := Shift(x2), Half(h2);
    var x4, h4 := Shift(x3), Half(h3);
    var x5, h5 := Shift(x4), Half(h4);
    var x6, h6 := Shift(x5), Half(h5);
    var x7, h7 := Shift(x6), Half(h6);
    ShiftXor(x, h);
    ShiftXor(x1, h1);
    ShiftXor(x2, h2);
    ShiftXor(x3, h3);
    ShiftXor(x4, h4);
    ShiftXor(x5, h5);
    ShiftXor(x6, h6);
    ShiftXor(x7, h7);
  }

  /** One table look-up is eight steps of the division. */
  lemma UpdateByteIsShift8(crc: bv32, b: bv8)
    ensures UpdateByte(crc, b) == Shift8(Xor(crc, Word(b)))
  {
    hide Shift8, Entry, LowByte, High, Xor, Word, Shr8, LowClear;
    var x := Xor(crc, Word(b));
    ByteAndRest(x);
    ByteGone(crc, b);
    EntryIsShift8(LowByte(x));
    Shift8Xor(Word(LowByte(x)), High(x));
  }

  // ---- the table-driven form is the bit-serial one ----

  function ShiftBy(x: bv32, n: nat): bv32
    decreases n
  {
    if n == 0 then x else ShiftBy(Shift(x), n - 1)
  }

  function Drop(h: bv32, n: nat): bv32
    decreases n
  {
    if n == 0 then h else Drop(Half(h), n - 1)
  }

  lemma ShiftByEight(x: bv32)
    ensures ShiftBy(x, 8) == Shift8(x)
  {
    hide Shift;
    var y := Shift(Shift(Shift(Shift(x))));
    assert ShiftBy(x, 8) == ShiftBy(Shift(x), 7) == ShiftBy(Shift(Shift(x)), 6);
    assert ShiftBy(Shift(Shift(x)), 6) == ShiftBy(Shift(Shift(Shift(x))), 5) == ShiftBy(y, 4);
    assert ShiftBy(y, 4) == ShiftBy(Shift(y), 3) == ShiftBy(Shift(Shift(y)), 2);
    assert ShiftBy(Shift(Shift(y)), 2) == ShiftBy(Shift(Shift(Shift(y))), 1);
  }

  lemma DropEight(b: bv8)
    ensures Drop(Word(b), 8) == 0
  {
    hide Half, Word, Shr8, Odd, LowClear;
    var h := Word(b);
    EightHalves(h);
    ByteGone(0, b);
    var k := Half(Half(Half(Half(h))));
    assert Drop(h, 8) == Drop(Half(h), 7) == Drop(Half(Half(h)), 6);
    assert Drop(Half(Half(h)), 6) == Drop(Half(Half(Half(h))), 5) == Drop(k, 4);
    assert Drop(k, 4) == Drop(Half(k), 3) == Drop(Half(Half(k)), 2);
    assert Drop(Half(Half(k)), 2) == Drop(Half(Half(Half(k))), 1);
  }

  /** Feeding bits one at a time is stepping with all of them in place; the bits not yet fed
      stay above. */
  lemma {:induction false} FeedAndStep(crc: bv32, h: bv32, bits: nat)
    ensures ShiftBy(Xor(crc, h), bits) == Xor(FeedBits(crc, h, bits), Drop(h, bits))
    decreases bits
  {
    hide Shift, Xor, Half, Lowest, Evened, Odd;
    if bits > 0 {
      BitAndRest(crc, h);
      ShiftXor(Xor(crc, Lowest(h)), Evened(h));
      FeedAndStep(FeedBit(crc, Lowest(h)), Half(h), bits - 1);
    }
  }

  lemma FeedByteIsShift8(crc: bv32, b: bv8)
    ensures FeedBits(crc, Word(b), 8) == Shift8(Xor(crc, Word(b)))
  {
    hide Shift8, Xor, Word, FeedBits, ShiftBy, Drop;
    FeedAndStep(crc, Word(b), 8);
    ShiftByEight(Xor(crc, Word(b)));
    DropEight(b);
    XorZero(FeedBits(crc, Word(b), 8));
  }

  /** For every buffer and start value the table-driven checksum is the bit-serial division. */
  lemma {:induction false} UpdateIsBitSerial(crc: bv32, buf: seq<bv8>)
    ensures Update(crc, buf) == BitSerial(crc, buf)
    decreases |buf|
  {
    hide UpdateByte, FeedBits, Shift8, Xor, Word;
    if buf != [] {
      UpdateByteIsShift8(crc, buf[0]);
      FeedByteIsShift8(crc, buf[0]);
      UpdateIsBitSerial(UpdateByte(crc, buf[0]), buf[1..]);
    }
  }

  lemma {:induction false} UpdateConcat(crc: bv32, a: seq<bv8>, b: seq<bv8>)
    ensures Update(crc, a + b) == Update(Update(crc, a), b)
    decreases |a|
  {
    hide UpdateByte;
    if a == [] {
      assert a + b == b;
    } else {
      assert (a + b)[0] == a[0] && (a + b)[1..] == a[1..] + b;
      UpdateConcat(UpdateByte(crc, a[0]), a[1..], b);
    }
  }

  // ---- error detection ----

  lemma UpdateByteInjective(x: bv32, y: bv32, b: bv8)
    requires UpdateByte(x, b) == UpdateByte(y, b)
    ensures x == y
  {
    hide UpdateByte, Shift8, Xor, Word;
    UpdateByteIsShift8(x, b);
    UpdateByteIsShift8(y, b);
    Shift8Injective(Xor(x, Word(b)), Xor(y, Word(b)));
    XorCancel(x, y, Word(b));
  }

  /** Whatever follows, two different checksums stay different. */
  lemma {:induction false} UpdateInjective(x: bv32, y: bv32, buf: seq<bv8>)
    requires Update(x, buf) == Update(y, buf)
    ensures x == y
    decreases |buf|
  {
    hide UpdateByte;
    if buf != [] {
      UpdateInjective(UpdateByte(x, buf[0]), UpdateByte(y, buf[0]), buf[1..]);
      UpdateByteInjective(x, y, buf[0]);
    }
  }

  /** The checksums differ in at most the lowest `bytes` bytes. */
  predicate DifferBelow(x: bv32, y: bv32, bytes: nat) { Above(Xor(x, y), bytes) == 0 }

  /** One byte backwards: a difference in the low bytes came from one a byte higher. */
  lemma StepBack(x: bv32, y: bv32, a: bv8, b: bv8, bytes: nat)
    requires bytes < 4 && DifferBelow(UpdateByte(x, a), UpdateByte(y, b), bytes)
    ensures DifferBelow(x, y, bytes + 1)
    ensures x == y ==> a == b && UpdateByte(x, a) == UpdateByte(y, b)
  {
    hide UpdateByte, Shift8, Above, Xor, Word, Shl8, Shr8, LowClear;
    UpdateByteIsShift8(x, a);
    UpdateByteIsShift8(y, b);
    var p, q := Xor(x, Word(a)), Xor(y, Word(b));
    var u, v := Shift8(p), Shift8(q);
    var d := Xor(u, v);
    MovedUp(d, bytes);
    Shift8Xor(q, Shl8(d));
    XorBack(u, v);
    Shift8Injective(p, Xor(q, Shl8(d)));
    XorAcross(x, y, Word(a), Word(b), Shl8(d));
    AboveMovedUp(a, b, d, bytes);
    if x == y {
      XorZero(x);
      NothingMovedUp(a, b, d, bytes);
      XorZero(v);
    }
  }

  /** If two runs over equally long windows of at most four bytes end alike, they began
      alike but for the low bytes, and if they began alike the windows are equal. */
  lemma {:induction false} WindowBack(x: bv32, y: bv32, a: seq<bv8>, b: seq<bv8>)
    requires |a| == |b| <= 4 && Update(x, a) == Update(y, b)
    ensures DifferBelow(x, y, |a|)
    ensures x == y ==> a == b
    decreases |a|
  {
    hide UpdateByte, DifferBelow;
    if a == [] {
      SelfDiffers(x);
    } else {
      var x', y' := UpdateByte(x, a[0]), UpdateByte(y, b[0]);
      WindowBack(x', y', a[1..], b[1..]);
      StepBack(x, y, a[0], b[0], |a| - 1);
      assert a == [a[0]] + a[1..] && b == [b[0]] + b[1..];
    }
  }

  lemma SelfDiffers(x: bv32)
    ensures DifferBelow(x, x, 0)
  {
    hide Above, Xor;
    AboveNothing(x);
  }

  /** A same-length change confined to four consecutive bytes always changes the checksum. */
  lemma BurstDetected(crc: bv32, before: seq<bv8>, a: seq<bv8>, b: seq<bv8>, after: seq<bv8>)
    requires |a| == |b| <= 4 && a != b
    ensures Update(crc, before + a + after) != Update(crc, before + b + after)
  {
    hide UpdateByte, DifferBelow, Update;
    if Update(crc, before + a + after) == Update(crc, before + b + after) {
      var c := Update(crc, before);
      UpdateConcat(crc, before + a, after);
      UpdateConcat(crc, before, a);
      UpdateConcat(crc, before + b, after);
      UpdateConcat(crc, before, b);
      UpdateInjective(Update(c, a), Update(c, b), after);
      WindowBack(c, c, a, b);
    }
  }

  // ---- a known checksum ----

  /** Byte k of a text. */
  lemma Feed(crc: bv32, text: seq<bv8>, k: nat, r: bv32)
    requires k < |text| && UpdateByte(crc, text[k]) == r
    ensures Update(crc, text[k..]) == Update(r, text[k + 1..])
  {
    hide UpdateByte;
    assert text[k..][0] == text[k] && text[k..][1..] == text[k + 1..];
  }

  lemma KnownBytes()
    ensures UpdateByte(0x0, 0x68) == 0x4369e96a
    ensures UpdateByte(0x4369e96a, 0x65) == 0x90fc7478
    ensures UpdateByte(0x90fc7478, 0x6c) == 0x1a4a2809
  {
  }

  lemma OtherKnownBytes()
    ensures UpdateByte(0x1a4a2809, 0x6c) == 0x3dc2dfff
    ensures UpdateByte(0x3dc2dfff, 0x6f) == 0xf032519b
    ensures UpdateByte(0xf032519b, 0x2d) == 0x22f224e8
  {
  }

  lemma MoreKnownBytes()
    ensures UpdateByte(0x22f224e8, 0x77) == 0x60927cf1
    ensures UpdateByte(0x60927cf1, 0x6f) == 0x17d72c3f
    ensures UpdateByte(0x17d72c3f, 0x72) == 0x87aea01
    ensures UpdateByte(0x87aea01, 0x6c) == 0x330b670f
    ensures UpdateByte(0x330b670f, 0x64) == 0xda53b3b7
  {
  }

  const HELLO_WORLD: seq<bv8> := [0x68, 0x65, 0x6c, 0x6c, 0x6f, 0x2d, 0x77, 0x6f, 0x72, 0x6c, 0x64]

  lemma KnownStart()
    ensures Update(0, HELLO_WORLD) == Update(0xf032519b, HELLO_WORLD[5..])
  {
    hide UpdateByte, Update;
    KnownBytes();
    OtherKnownBytes();
    assert HELLO_WORLD[0..] == HELLO_WORLD;
    Feed(0x0, HELLO_WORLD, 0, 0x4369e96a);
    Feed(0x4369e96a, HELLO_WORLD, 1, 0x90fc7478);
    Feed(0x90fc7478, HELLO_WORLD, 2, 0x1a4a2809);
    Feed(0x1a4a2809, HELLO_WORLD, 3, 0x3dc2dfff);
    Feed(0x3dc2dfff, HELLO_WORLD, 4, 0xf032519b);
  }

  /** The checksum of "hello-world". */
  lemma KnownChecksum()
    ensures Update(0, HELLO_WORLD) == 0xda53b3b7
  {
    hide UpdateByte, Update;
    KnownStart();
    OtherKnownBytes();
    MoreKnownBytes();
    assert HELLO_WORLD[11..] == [];
    Feed(0xf032519b, HELLO_WORLD, 5, 0x22f224e8);
    Feed(0x22f224e8, HELLO_WORLD, 6, 0x60927cf1);
    Feed(0x60927cf1, HELLO_WORLD, 7, 0x17d72c3f);
    Feed(0x17d72c3f, HELLO_WORLD, 8, 0x87aea01);
    Feed(0x87aea01, HELLO_WORLD, 9, 0x330b670f);
    Feed(0x330b670f, HELLO_WORLD, 10, 0xda53b3b7);
    UpdateNothing(0xda53b3b7);
  }
}
