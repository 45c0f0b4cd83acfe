// Variable-length integers: seven bits a byte, least significant group first, the top bit
// set on every byte but the last (unsigned LEB128, section 7.6 of DWARF 5).
module Varint {
  import opened Basics

  function Pow2(n: nat): (p: nat)
    ensures p >= 1
  {
    if n == 0 then 1 else 2 * Pow2(n - 1)
  }

  /** The number that a run of groups stands for. */
  function Value(groups: seq<Byte>): nat {
    if groups == [] then 0 else groups[0] % 128 + 128 * Value(groups[1..])
  }

  /** The offset of the first byte at or after `from` whose top bit is clear, or |buf|. */
  function End(buf: seq<Byte>, from: nat): (e: nat)
    requires from <= |buf|
    ensures from <= e <= |buf|
    ensures forall i :: from <= i < e ==> buf[i] >= 128
    ensures e < |buf| ==> buf[e] < 128
    decreases |buf| - from
  {
    if from == |buf| || buf[from] < 128 then from else End(buf, from + 1)
  }

  /** What a parse reports: the number, or the reason why there is none, and the offset it
      leaves behind. */
  datatype Parsed = Number(value: nat, next: nat) | TooLarge(next: nat) | Truncated(next: nat)

  function Parse(buf: seq<Byte>, from: nat): Parsed {
    if from >= |buf| then Truncated(from)
    else
      var e := End(buf, from);
      if e == |buf| then Truncated(|buf|)
      else if e - from < 5 && Value(buf[from..e + 1]) < UINT32_MODULUS then
        Number(Value(buf[from..e + 1]), e + 1)
      else TooLarge(e + 1)
  }

  function Encode(v: nat): (groups: seq<Byte>)
    ensures |groups| >= 1
  {
    if v < 128 then [v] else [128 + v % 128] + Encode(v / 128)
  }

  // ---- arithmetic of the encoding ----

  lemma Pow2Add7(n: nat)
    ensures Pow2(n + 7) == 128 * Pow2(n)
  {
    assert Pow2(n + 7) == 2 * Pow2(n + 6) == 4 * Pow2(n + 5) == 8 * Pow2(n + 4);
    assert Pow2(n + 4) == 2 * Pow2(n + 3) == 4 * Pow2(n + 2) == 8 * Pow2(n + 1);
  }

  lemma {:induction false} ValueSnoc(groups: seq<Byte>, b: Byte)
    ensures Value(groups + [b]) == Value(groups) + (b % 128) * Pow2(7 * |groups|)
  {
    if groups == [] {
      assert Value([b]) == b % 128 + 128 * Value([]);
    } else {
      ValueSnoc(groups[1..], b);
      assert (groups + [b])[1..] == groups[1..] + [b];
      Pow2Add7(7 * |groups[1..]|);
      var p := Pow2(7 * |groups[1..]|);
      assert 128 * ((b % 128) * p) == (b % 128) * (128 * p);
    }
  }

  lemma {:induction false} ValueBound(groups: seq<Byte>)
    ensures Value(groups) < Pow2(7 * |groups|)
  {
    if groups != [] {
      ValueBound(groups[1..]);
      Pow2Add7(7 * |groups[1..]|);
    }
  }

  /** A byte with the top bit set and then the number's own encoding: what an encoder
      writes is read back exactly, wherever it stands. */
  lemma {:induction false} DecodeEncode(buf: seq<Byte>, at: nat, v: nat)
    requires At(buf, at, Encode(v))
    ensures End(buf, at) == at + |Encode(v)| - 1
    ensures Value(buf[at..at + |Encode(v)|]) == v
    decreases v
  {
    var w := buf[at..at + |Encode(v)|];
    assert w[0] == buf[at];
    if v < 128 {
      assert w[1..] == [];
    } else {
      assert Encode(v) == [128 + v % 128] + Encode(v / 128);
      AtSplit(buf, at, [128 + v % 128], Encode(v / 128));
      DecodeEncode(buf, at + 1, v / 128);
      assert w[1..] == Encode(v / 128) == buf[at + 1..at + 1 + |Encode(v / 128)|];
    }
  }

  lemma {:induction false} EncodeLength(v: nat, groups: nat)
    requires groups >= 1 && v < Pow2(7 * groups)
    ensures |Encode(v)| <= groups
    decreases groups
  {
    if v >= 128 {
      Pow2Add7(7 * (groups - 1));
      if groups == 1 {
        assert false;
      } else {
        EncodeLength(v / 128, groups - 1);
      }
    }
  }

  /** Round trip: every 32-bit number is parsed back from its encoding, at any offset and
      whatever follows it. */
  lemma ParseEncode(buf: seq<Byte>, at: nat, v: nat)
    requires v < UINT32_MODULUS && At(buf, at, Encode(v))
    ensures Parse(buf, at) == Number(v, at + |Encode(v)|)
  {
    hide Value, Encode, Pow2;
    DecodeEncode(buf, at, v);
    Pow2Of35();
    EncodeLength(v, 5);
  }

  lemma Pow2Of35()
    ensures Pow2(35) == 0x8_0000_0000 && Pow2(28) == 0x1000_0000 && Pow2(4) == 16
  {
    Pow2Add7(0); Pow2Add7(7); Pow2Add7(14); Pow2Add7(21); Pow2Add7(28);
    assert Pow2(4) == 2 * Pow2(3) == 4 * Pow2(2) == 8 * Pow2(1) == 16;
  }

  /** A number is complete at `e`: `e` holds the first byte whose top bit is clear. */
  ghost predicate EndsAt(buf: seq<Byte>, from: nat, e: nat) {
    from <= e < |buf| && buf[e] < 128 && forall i :: from <= i < e ==> buf[i] >= 128
  }

  lemma {:induction false} EndIs(buf: seq<Byte>, from: nat, e: nat)
    requires from <= e <= |buf| && (e < |buf| ==> buf[e] < 128)
    requires forall i :: from <= i < e ==> buf[i] >= 128
    ensures End(buf, from) == e
    decreases e - from
  {
    if from < e { EndIs(buf, from + 1, e); }
  }

  /** A parse is cut short exactly when no byte ends the number. */
  lemma TruncatedIff(buf: seq<Byte>, from: nat)
    requires from <= |buf|
    ensures Parse(buf, from).Truncated? <==> forall i :: from <= i < |buf| ==> buf[i] >= 128
  {
    var e := End(buf, from);
    if e < |buf| { assert buf[e] < 128; }
  }

  /** A parse succeeds exactly when the number ends within five bytes and is below 2^32;
      it then yields the number and the offset just past its last byte. */
  lemma NumberIff(buf: seq<Byte>, from: nat, e: nat)
    requires EndsAt(buf, from, e)
    ensures Parse(buf, from).next == e + 1
    ensures Parse(buf, from).Number? <==> e - from < 5 && Value(buf[from..e + 1]) < UINT32_MODULUS
    ensures Parse(buf, from).Number? ==> Parse(buf, from).value == Value(buf[from..e + 1])
    ensures !Parse(buf, from).Number? ==> Parse(buf, from).TooLarge?
  {
    EndIs(buf, from, e);
  }

  // ---- the parser's loops ----

  /** The state of the first loop: `value` is what the groups read so far stand for. */
  ghost predicate Accumulating(s: seq<Byte>, offset: nat, pos: nat, value: nat) {
    offset <= pos <= |s| && pos - offset <= 4 && value == Value(s[offset..pos])
    && forall i :: offset <= i < pos ==> s[i] >= 128
  }

  lemma StartAccumulating(s: seq<Byte>, offset: nat)
    requires offset < |s|
    ensures Accumulating(s, offset, offset, 0)
  {
    assert s[offset..offset] == [];
  }

  lemma ReadGroup(s: seq<Byte>, offset: nat, pos: nat, value: nat)
    requires Accumulating(s, offset, pos, value) && pos < |s|
    ensures Value(s[offset..pos + 1]) == value + (s[pos] % 128) * Pow2(7 * (pos - offset))
    ensures pos - offset < 4 || s[pos] < 16 ==> Value(s[offset..pos + 1]) < UINT32_MODULUS
    ensures pos - offset == 4 && s[pos] >= 16 ==>
              s[pos] >= 128 || Value(s[offset..pos + 1]) >= UINT32_MODULUS
  {
    assert s[offset..pos + 1] == s[offset..pos] + [s[pos]];
    ValueSnoc(s[offset..pos], s[pos]);
    ValueBound(s[offset..pos]);
    Pow2Of35();
    if pos - offset < 4 {
      ValueBound(s[offset..pos + 1]);
      Pow2Monotone(7 * (pos + 1 - offset), 28);
    } else if s[pos] < 16 {
      assert (s[pos] % 128) * Pow2(28) <= 15 * Pow2(28);
    } else if s[pos] < 128 {
      assert (s[pos] % 128) * Pow2(28) >= 16 * Pow2(28);
    }
  }

  lemma {:induction false} Pow2Monotone(a: nat, b: nat)
    requires a <= b
    ensures Pow2(a) <= Pow2(b)
    decreases b
  {
    if a < b { Pow2Monotone(a, b - 1); }
  }

  /** Only the fifth group has less than seven bits left, and then there are four. */
  lemma FifthGroup(b: Byte, groups: nat)
    requires groups <= 4
    ensures var bitsLeft := 32 - 7 * groups;
            bitsLeft < 7 && b / Pow2(bitsLeft) > 0 <==> groups == 4 && b >= 16
  {
    Pow2Of35();
  }

  /** The library's 32-bit parser: groups are accumulated while they fit. */
  method ParseVaruint32(buf: array<Byte>, offset: nat) returns (r: Parsed)
    ensures r == Parse(buf[..], offset)
  {
    var value: nat, numBits: nat, bitsLeft: nat, pos := 0, 0, 32, offset;
    ghost var s := buf[..];
    if offset < buf.Length { StartAccumulating(s, offset); }
    hide Value, Pow2, Accumulating;
    while true
      invariant offset >= |s| ==> pos == offset
      invariant offset < |s| ==> Accumulating(s, offset, pos, value)
      invariant pos - offset <= 4 && numBits == 7 * (pos - offset) && bitsLeft == 32 - numBits
      decreases 5 - (pos - offset)
    {
      if pos >= buf.Length {
        if offset < buf.Length { EndIs(s, offset, pos); }
        return Truncated(pos);
      }
      var byte := buf[pos];
      ReadGroup(s, offset, pos, value);
      FifthGroup(byte, pos - offset);
      pos := pos + 1;
      if bitsLeft < 7 && byte / Pow2(bitsLeft) > 0 {
        r := SkipRest(buf, offset, pos);
        return;
      }
      value := value + (byte % 128) * Pow2(numBits);
      if byte < 128 {
        EndIs(s, offset, pos - 1);
        return Number(value, pos);
      }
      numBits := numBits + 7;
      bitsLeft := bitsLeft - 7;
      if numBits > 31 {
        // A fifth byte with its top bit set never passes the guard above.
        assert false;
      }
    }
  }

  /** The parser's second loop: the number does not fit, so its remaining bytes are skipped. */
  method SkipRest(buf: array<Byte>, offset: nat, start: nat) returns (r: Parsed)
    requires offset + 5 == start <= buf.Length
    requires forall i :: offset <= i < start - 1 ==> buf[i] >= 128
    requires buf[start - 1] >= 128 || Value(buf[offset..start]) >= UINT32_MODULUS
    ensures r == Parse(buf[..], offset)
  {
    ghost var s := buf[..];
    assert s[offset..start] == buf[offset..start];
    var pos := start;
    while true
      invariant start <= pos <= |s|
      invariant forall i :: offset <= i < pos - 1 ==> s[i] >= 128
      decreases |s| - pos
    {
      if buf[pos - 1] < 128 {
        EndIs(s, offset, pos - 1);
        return TooLarge(pos);
      }
      if pos >= buf.Length {
        EndIs(s, offset, pos);
        return Truncated(pos);
      }
      pos := pos + 1;
    }
  }

  // ---- an example ----

  /** 65831 is 39 + 2 * 128 + 4 * 128 * 128. */
  lemma ExampleNumber()
    ensures Encode(65831) == [0xA7, 0x82, 0x04]
    ensures Parse([0xA7, 0x82, 0x04], 0) == Number(65831, 3)
    ensures Parse([0x80, 0x80, 0x80, 0x80, 0x10], 0) == TooLarge(5) && Parse([0x80, 0x80], 0) == Truncated(2)
  {
    assert Encode(514) == [0x82, 0x04] && Encode(4) == [0x04];
    var bytes: seq<Byte> := [0xA7, 0x82, 0x04];
    assert bytes[0..3] == bytes;
    ParseEncode(bytes, 0, 65831);
    hide Value, Encode;
    LargeNumber();
    TruncatedIff([0x80, 0x80], 0);
    EndIs([0x80, 0x80], 0, 2);
  }

  lemma LargeNumber()
    ensures Parse([0x80, 0x80, 0x80, 0x80, 0x10], 0) == TooLarge(5)
  {
    hide Pow2, Value, Parse;
    var bytes: seq<Byte> := [0x80, 0x80, 0x80, 0x80, 0x10];
    assert bytes[0..5] == bytes[..4] + [0x10];
    ValueSnoc(bytes[..4], 0x10);
    Pow2Of35();
    NumberIff(bytes, 0, 4);
  }
}
