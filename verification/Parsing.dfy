// Little-endian 16-bit integers in byte buffers.
module Parsing {
  import opened Basics

  predicate Int16(v: int) { INT16_MIN <= v <= INT16_MAX }

  /** The cast of a signed 16-bit integer to an unsigned one. */
  function Unsigned(v: int): (w: nat)
    requires Int16(v)
    ensures w < 0x10000
  {
    if v < 0 then v + 0x10000 else v
  }

  /** The cast back. */
  function Signed(w: nat): (v: int)
    requires w < 0x10000
    ensures Int16(v) && Unsigned(v) == w
  {
    if w >= 0x8000 then w - 0x10000 else w
  }

  function Le16(w: nat): (b: seq<Byte>)
    requires w < 0x10000
    ensures |b| == 2
  {
    [w % 256, w / 256]
  }

  function Word(bytes: seq<Byte>, at: nat): (w: nat)
    requires at + 2 <= |bytes|
    ensures w < 0x10000
  {
    var high: nat, low: nat := bytes[at + 1], bytes[at];
    256 * high + low
  }

  predicate AllInt16(vs: seq<int>) { forall i :: 0 <= i < |vs| ==> Int16(vs[i]) }

  /** Signed values, one after the other. */
  function Words(vs: seq<int>): (b: seq<Byte>)
    requires AllInt16(vs)
    ensures |b| == 2 * |vs|
  {
    if vs == [] then [] else Le16(Unsigned(vs[0])) + Words(vs[1..])
  }

  function ReadWords(bytes: seq<Byte>, at: nat, n: nat): (vs: seq<int>)
    requires at + 2 * n <= |bytes|
    ensures |vs| == n && AllInt16(vs)
    decreases n
  {
    if n == 0 then [] else [Signed(Word(bytes, at))] + ReadWords(bytes, at + 2, n - 1)
  }

  /** What was written is read back, wherever it stands. */
  lemma ReadWritten(bytes: seq<Byte>, at: nat, w: nat)
    requires w < 0x10000 && At(bytes, at, Le16(w))
    ensures Word(bytes, at) == w
  {
    AtIndex(bytes, at, Le16(w), 0);
    AtIndex(bytes, at, Le16(w), 1);
  }

  lemma {:induction false} ReadWrittenWords(bytes: seq<Byte>, at: nat, vs: seq<int>)
    requires AllInt16(vs) && At(bytes, at, Words(vs))
    ensures ReadWords(bytes, at, |vs|) == vs
    decreases |vs|
  {
    if vs != [] {
      AtSplit(bytes, at, Le16(Unsigned(vs[0])), Words(vs[1..]));
      ReadWritten(bytes, at, Unsigned(vs[0]));
      ReadWrittenWords(bytes, at + 2, vs[1..]);
    }
  }

  lemma {:induction false} ReadWordsAt(bytes: seq<Byte>, at: nat, n: nat, i: nat)
    requires at + 2 * n <= |bytes| && i < n
    ensures ReadWords(bytes, at, n)[i] == Signed(Word(bytes, at + 2 * i))
    decreases n
  {
    if i > 0 { ReadWordsAt(bytes, at + 2, n - 1, i - 1); }
  }

  /** What is read is what would have been written. */
  lemma {:induction false} WrittenRead(bytes: seq<Byte>, at: nat, n: nat)
    requires at + 2 * n <= |bytes|
    ensures At(bytes, at, Words(ReadWords(bytes, at, n)))
    decreases n
  {
    if n > 0 {
      var vs := ReadWords(bytes, at, n);
      WrittenRead(bytes, at + 2, n - 1);
      assert vs[1..] == ReadWords(bytes, at + 2, n - 1);
      WordBytes(bytes, at);
      assert bytes[at..at + 2 * n] == bytes[at..at + 2] + bytes[at + 2..at + 2 * n];
    }
  }

  lemma WordBytes(bytes: seq<Byte>, at: nat)
    requires at + 2 <= |bytes|
    ensures bytes[at..at + 2] == Le16(Word(bytes, at))
  {
  }

  method ParseUint16(buf: array<Byte>, offset: nat) returns (w: nat, next: nat)
    requires offset + 2 <= buf.Length
    ensures w == Word(buf[..], offset) && next == offset + 2
  {
    w := buf[offset + 1];
    w := w * 256 + buf[offset];
    next := offset + 2;
  }

  method ParseInt16(buf: array<Byte>, offset: nat) returns (v: int, next: nat)
    requires offset + 2 <= buf.Length
    ensures v == Signed(Word(buf[..], offset)) && next == offset + 2
  {
    var w;
    w, next := ParseUint16(buf, offset);
    v := Signed(w);
  }

  method WriteUint16(buf: array<Byte>, offset: nat, w: nat) returns (next: nat)
    requires offset + 2 <= buf.Length && w < 0x10000
    modifies buf
    ensures next == offset + 2 && At(buf[..], offset, Le16(w))
    ensures forall i :: (0 <= i < offset || next <= i < buf.Length) ==> buf[i] == old(buf[i])
  {
    buf[offset] := w % 256;
    buf[offset + 1] := w / 256;
    next := offset + 2;
  }

  method WriteInt16(buf: array<Byte>, offset: nat, v: int) returns (next: nat)
    requires offset + 2 <= buf.Length && Int16(v)
    modifies buf
    ensures next == offset + 2 && At(buf[..], offset, Words([v]))
    ensures forall i :: (0 <= i < offset || next <= i < buf.Length) ==> buf[i] == old(buf[i])
  {
    next := WriteUint16(buf, offset, Unsigned(v));
    assert [v][1..] == [];
    assert Words([v]) == Le16(Unsigned(v));
  }

  /** Three values, low bytes first and negative ones in two's complement. */
  lemma ExampleWords()
    ensures Words([0x0201, 0x0403, -257]) == [1, 2, 3, 4, 0xFF, 0xFE]
    ensures ReadWords([1, 2, 3, 4, 0xFF, 0xFE], 0, 3) == [0x0201, 0x0403, -257]
  {
    assert [0x0201, 0x0403, -257][1..] == [0x0403, -257] && [0x0403, -257][1..] == [-257] && [-257][1..] == [];
    assert Words([-257]) == [0xFF, 0xFE] && Words([0x0403, -257]) == [3, 4, 0xFF, 0xFE];
    var bytes: seq<Byte> := [1, 2, 3, 4, 0xFF, 0xFE];
    assert bytes == bytes[0..6];
    ReadWrittenWords(bytes, 0, [0x0201, 0x0403, -257]);
  }
}
