// Words of the checksum, the facts about them that the proofs need, and the lookup table with
// its meaning: entry i is the byte i pushed through eight steps of the reflected division.
module Words {
  function Xor(a: bv32, b: bv32): bv32 { a ^ b }

  predicate Odd(x: bv32) { x & 1 == 1 }

  function Half(x: bv32): bv32 { x >> 1 }

  /** The lowest bit, and the rest. */
  function Lowest(x: bv32): bv32 { x & 1 }

  function Evened(x: bv32): bv32 { x & 0xffff_fffe }

  function Word(b: bv8): bv32 { b as bv32 }

  function LowByte(x: bv32): bv8 { (x & 0xff) as bv8 }

  /** The upper three bytes, in place; moved down; moved up. */
  function High(x: bv32): bv32 { x & 0xffff_ff00 }

  function Shr8(x: bv32): bv32 { x >> 8 }

  function Shl8(x: bv32): bv32 { x << 8 }

  predicate LowClear(x: bv32) { x & 0xff == 0 }

  /** A number below 256 as a byte. */
  lemma ByteKept(n: nat)
    requires n < 256
    ensures (n as bv8) as int == n
  {
    var b := SomeByte(n);
    NumberKept(b);
  }

  lemma {:induction false} SomeByte(n: nat) returns (b: bv8)
    requires n < 256
    ensures b as int == n
  {
    b := 0;
    if n > 0 {
      b := SomeByte(n - 1);
      b := b + 1;
    }
  }

  lemma NumberKept(b: bv8)
    ensures (b as nat) as bv8 == b
  {
  }

  lemma XorSwap(a: bv32, b: bv32, c: bv32)
    ensures Xor(Xor(a, b), c) == Xor(Xor(a, c), b)
  {
    hide Xor;
    XorComm(a, b);
    XorAssoc(b, a, c);
    XorComm(b, Xor(a, c));
  }

  lemma XorAssoc(a: bv32, b: bv32, c: bv32)
    ensures Xor(Xor(a, b), c) == Xor(a, Xor(b, c))
  {
  }

  lemma XorZero(x: bv32)
    ensures Xor(x, 0) == x && Xor(x, x) == 0
  {
  }

  lemma XorBack(u: bv32, v: bv32)
    ensures Xor(v, Xor(u, v)) == u
  {
  }

  lemma XorCancel(x: bv32, y: bv32, b: bv32)
    requires Xor(x, b) == Xor(y, b)
    ensures x == y
  {
  }

  lemma XorAcross(x: bv32, y: bv32, a: bv32, b: bv32, h: bv32)
    requires Xor(x, a) == Xor(Xor(y, b), h)
    ensures Xor(x, y) == Xor(Xor(a, b), h)
  {
    hide Xor;
    // both sides of the assumption, with a and y added
    XorSwap(x, a, y);
    XorSwap(Xor(y, b), h, y);
    XorSwap(y, b, y);
    XorZero(y);
    XorOfZero(b);
    assert Xor(Xor(x, y), a) == Xor(b, h);
    XorSwap(Xor(x, y), a, a);
    XorTwice(Xor(x, y), a);
    XorComm(a, b);
    XorSwap(b, h, a);
  }

  lemma XorOfZero(b: bv32)
    ensures Xor(0, b) == b
  {
  }

  lemma XorTwice(x: bv32, a: bv32)
    ensures Xor(Xor(x, a), a) == x
  {
  }

  lemma XorComm(a: bv32, b: bv32)
    ensures Xor(a, b) == Xor(b, a)
  {
  }

  lemma XorEven(x: bv32, h: bv32)
    requires !Odd(h)
    ensures Odd(Xor(x, h)) == Odd(x)
  {
  }

  lemma XorHalf(x: bv32, h: bv32)
    ensures Half(Xor(x, h)) == Xor(Half(x), Half(h))
  {
  }

  lemma BitAndRest(c: bv32, h: bv32)
    ensures Xor(c, h) == Xor(Xor(c, Lowest(h)), Evened(h))
    ensures !Odd(Evened(h)) && Half(Evened(h)) == Half(h)
  {
    hide Odd, Half;
    BitAndRestWords(c, h);
    EvenedIs(h);
  }

  lemma BitAndRestWords(c: bv32, h: bv32)
    ensures c ^ h == (c ^ (h & 1)) ^ (h & 0xffff_fffe)
  {
  }

  lemma EvenedIs(h: bv32)
    ensures !Odd(Evened(h)) && Half(Evened(h)) == Half(h)
  {
  }

  lemma ByteAndRest(x: bv32)
    ensures x == Xor(Word(LowByte(x)), High(x))
    ensures LowClear(High(x)) && Shr8(High(x)) == Shr8(x)
  {
  }

  lemma ByteGone(c: bv32, b: bv8)
    ensures Shr8(Xor(c, Word(b))) == Shr8(c)
    ensures Shr8(Word(b)) == 0
  {
  }

  /** The k-fold half of a word with a clear low byte is even. */
  lemma EightHalves(h: bv32)
    ensures Half(Half(Half(Half(Half(Half(Half(Half(h)))))))) == Shr8(h)
    ensures LowClear(h) ==>
              && !Odd(h) && !Odd(Half(h)) && !Odd(Half(Half(h))) && !Odd(Half(Half(Half(h))))
              && !Odd(Half(Half(Half(Half(h))))) && !Odd(Half(Half(Half(Half(Half(h))))))
              && !Odd(Half(Half(Half(Half(Half(Half(h)))))))
              && !Odd(Half(Half(Half(Half(Half(Half(Half(h))))))))
  {
  }

  /** The bits above the lowest `bytes` bytes. */
  function Above(d: bv32, bytes: nat): bv32 {
    if bytes == 0 then d
    else if bytes == 1 then d & 0xffff_ff00
    else if bytes == 2 then d & 0xffff_0000
    else if bytes == 3 then d & 0xff00_0000
    else 0
  }

  lemma AboveNothing(x: bv32)
    ensures Above(Xor(x, x), 0) == 0
  {
  }

  lemma MovedUp(d: bv32, bytes: nat)
    requires bytes < 4 && Above(d, bytes) == 0
    ensures LowClear(Shl8(d)) && Shr8(Shl8(d)) == d
  {
    hide LowClear, Shl8, Shr8;
    TopClear(d, bytes);
    UpAndDown(d);
  }

  lemma TopClear(d: bv32, bytes: nat)
    requires bytes < 4 && Above(d, bytes) == 0
    ensures d & 0xff00_0000 == 0
  {
  }

  lemma UpAndDown(d: bv32)
    requires d & 0xff00_0000 == 0
    ensures LowClear(Shl8(d)) && Shr8(Shl8(d)) == d
  {
  }

  lemma AboveMovedUp(a: bv8, b: bv8, d: bv32, bytes: nat)
    requires bytes < 4 && Above(d, bytes) == 0
    ensures Above(Xor(Xor(Word(a), Word(b)), Shl8(d)), bytes + 1) == 0
  {
  }

  lemma NothingMovedUp(a: bv8, b: bv8, d: bv32, bytes: nat)
    requires bytes < 4 && Above(d, bytes) == 0 && Xor(Xor(Word(a), Word(b)), Shl8(d)) == 0
    ensures a == b && d == 0
  {
  }
}

module CrcTable {
  import opened Words

  /** Reflected generator polynomial (0x104C11DB7, section 8 of RFC 1952). */
  const POLYNOMIAL: bv32 := 0xEDB88320

  /** One step of the bit-serial division. */
  function Shift(x: bv32): bv32 {
    if Odd(x) then Xor(Half(x), POLYNOMIAL) else Half(x)
  }

  function Shift8(x: bv32): bv32 {
    Shift(Shift(Shift(Shift(Shift(Shift(Shift(Shift(x))))))))
  }

  // The 256 entries in order, sixteen to a row.

  const ROW0: seq<bv32> := [
    0x00000000, 0x77073096, 0xee0e612c, 0x990951ba, 0x076dc419, 0x706af48f, 0xe963a535, 0x9e6495a3,
    0x0edb8832, 0x79dcb8a4, 0xe0d5e91e, 0x97d2d988, 0x09b64c2b, 0x7eb17cbd, 0xe7b82d07, 0x90bf1d91
  ]

  const ROW1: seq<bv32> := [
    0x1db71064, 0x6ab020f2, 0xf3b97148, 0x84be41de, 0x1adad47d, 0x6ddde4eb, 0xf4d4b551, 0x83d385c7,
    0x136c9856, 0x646ba8c0, 0xfd62f97a, 0x8a65c9ec, 0x14015c4f, 0x63066cd9, 0xfa0f3d63, 0x8d080df5
  ]

  const ROW2: seq<bv32> := [
    0x3b6e20c8, 0x4c69105e, 0xd56041e4, 0xa2677172, 0x3c03e4d1, 0x4b04d447, 0xd20d85fd, 0xa50ab56b,
    0x35b5a8fa, 0x42b2986c, 0xdbbbc9d6, 0xacbcf940, 0x32d86ce3, 0x45df5c75, 0xdcd60dcf, 0xabd13d59
  ]

  const ROW3: seq<bv32> := [
    0x26d930ac, 0x51de003a, 0xc8d75180, 0xbfd06116, 0x21b4f4b5, 0x56b3c423, 0xcfba9599, 0xb8bda50f,
    0x2802b89e, 0x5f058808, 0xc60cd9b2, 0xb10be924, 0x2f6f7c87, 0x58684c11, 0xc1611dab, 0xb6662d3d
  ]

  const ROW4: seq<bv32> := [
    0x76dc4190, 0x01db7106, 0x98d220bc, 0xefd5102a, 0x71b18589, 0x06b6b51f, 0x9fbfe4a5, 0xe8b8d433,
    0x7807c9a2, 0x0f00f934, 0x9609a88e, 0xe10e9818, 0x7f6a0dbb, 0x086d3d2d, 0x91646c97, 0xe6635c01
  ]

  const ROW5: seq<bv32> := [
    0x6b6b51f4, 0x1c6c6162, 0x856530d8, 0xf262004e, 0x6c0695ed, 0x1b01a57b, 0x8208f4c1, 0xf50fc457,
    0x65b0d9c6, 0x12b7e950, 0x8bbeb8ea, 0xfcb9887c, 0x62dd1ddf, 0x15da2d49, 0x8cd37cf3, 0xfbd44c65
  ]

  const ROW6: seq<bv32> := [
    0x4db26158, 0x3ab551ce, 0xa3bc0074, 0xd4bb30e2, 0x4adfa541, 0x3dd895d7, 0xa4d1c46d, 0xd3d6f4fb,
    0x4369e96a, 0x346ed9fc, 0xad678846, 0xda60b8d0, 0x44042d73, 0x33031de5, 0xaa0a4c5f, 0xdd0d7cc9
  ]

  const ROW7: seq<bv32> := [
    0x5005713c, 0x270241aa, 0xbe0b1010, 0xc90c2086, 0x5768b525, 0x206f85b3, 0xb966d409, 0xce61e49f,
    0x5edef90e, 0x29d9c998, 0xb0d09822, 0xc7d7a8b4, 0x59b33d17, 0x2eb40d81, 0xb7bd5c3b, 0xc0ba6cad
  ]

  const ROW8: seq<bv32> := [
    0xedb88320, 0x9abfb3b6, 0x03b6e20c, 0x74b1d29a, 0xead54739, 0x9dd277af, 0x04db2615, 0x73dc1683,
    0xe3630b12, 0x94643b84, 0x0d6d6a3e, 0x7a6a5aa8, 0xe40ecf0b, 0x9309ff9d, 0x0a00ae27, 0x7d079eb1
  ]

  const ROW9: seq<bv32> := [
    0xf00f9344, 0x8708a3d2, 0x1e01f268, 0x6906c2fe, 0xf762575d, 0x806567cb, 0x196c3671, 0x6e6b06e7,
    0xfed41b76, 0x89d32be0, 0x10da7a5a, 0x67dd4acc, 0xf9b9df6f, 0x8ebeeff9, 0x17b7be43, 0x60b08ed5
  ]

  const ROWA: seq<bv32> := [
    0xd6d6a3e8, 0xa1d1937e, 0x38d8c2c4, 0x4fdff252, 0xd1bb67f1, 0xa6bc5767, 0x3fb506dd, 0x48b2364b,
    0xd80d2bda, 0xaf0a1b4c, 0x36034af6, 0x41047a60, 0xdf60efc3, 0xa867df55, 0x316e8eef, 0x4669be79
  ]

  const ROWB: seq<bv32> := [
    0xcb61b38c, 0xbc66831a, 0x256fd2a0, 0x5268e236, 0xcc0c7795, 0xbb0b4703, 0x220216b9, 0x5505262f,
    0xc5ba3bbe, 0xb2bd0b28, 0x2bb45a92, 0x5cb36a04, 0xc2d7ffa7, 0xb5d0cf31, 0x2cd99e8b, 0x5bdeae1d
  ]

  const ROWC: seq<bv32> := [
    0x9b64c2b0, 0xec63f226, 0x756aa39c, 0x026d930a, 0x9c0906a9, 0xeb0e363f, 0x72076785, 0x05005713,
    0x95bf4a82, 0xe2b87a14, 0x7bb12bae, 0x0cb61b38, 0x92d28e9b, 0xe5d5be0d, 0x7cdcefb7, 0x0bdbdf21
  ]

  const ROWD: seq<bv32> := [
    0x86d3d2d4, 0xf1d4e242, 0x68ddb3f8, 0x1fda836e, 0x81be16cd, 0xf6b9265b, 0x6fb077e1, 0x18b74777,
    0x88085ae6, 0xff0f6a70, 0x66063bca, 0x11010b5c, 0x8f659eff, 0xf862ae69, 0x616bffd3, 0x166ccf45
  ]

  const ROWE: seq<bv32> := [
    0xa00ae278, 0xd70dd2ee, 0x4e048354, 0x3903b3c2, 0xa7672661, 0xd06016f7, 0x4969474d, 0x3e6e77db,
    0xaed16a4a, 0xd9d65adc, 0x40df0b66, 0x37d83bf0, 0xa9bcae53, 0xdebb9ec5, 0x47b2cf7f, 0x30b5ffe9
  ]

  const ROWF: seq<bv32> := [
    0xbdbdf21c, 0xcabac28a, 0x53b39330, 0x24b4a3a6, 0xbad03605, 0xcdd70693, 0x54de5729, 0x23d967bf,
    0xb3667a2e, 0xc4614ab8, 0x5d681b02, 0x2a6f2b94, 0xb40bbe37, 0xc30c8ea1, 0x5a05df1b, 0x2d02ef8d
  ]

  const TABLE: seq<seq<bv32>> := [
    ROW0, ROW1, ROW2, ROW3, ROW4, ROW5, ROW6, ROW7, ROW8, ROW9, ROWA, ROWB, ROWC, ROWD, ROWE, ROWF
  ]

  /** The entry for a byte. */
  function Entry(i: bv8): bv32 {
    TableShape();
    TABLE[(i >> 4) as int][(i & 15) as int]
  }

  lemma TableShape()
    ensures |TABLE| == 16 && forall r :: 0 <= r < 16 ==> |TABLE[r]| == 16
  {
  }

  lemma Row0Correct(i: bv8)
    requires i < 16
    ensures |ROW0| == 16 && ROW0[i as int] == Shift8((0x00 + i) as bv32)
  {
  }

  lemma Row1Correct(i: bv8)
    requires i < 16
    ensures |ROW1| == 16 && ROW1[i as int] == Shift8((0x10 + i) as bv32)
  {
  }

  lemma Row2Correct(i: bv8)
    requires i < 16
    ensures |ROW2| == 16 && ROW2[i as int] == Shift8((0x20 + i) as bv32)
  {
  }

  lemma Row3Correct(i: bv8)
    requires i < 16
    ensures |ROW3| == 16 && ROW3[i as int] == Shift8((0x30 + i) as bv32)
  {
  }

  lemma Row4Correct(i: bv8)
    requires i < 16
    ensures |ROW4| == 16 && ROW4[i as int] == Shift8((0x40 + i) as bv32)
  {
  }

  lemma Row5Correct(i: bv8)
    requires i < 16
    ensures |ROW5| == 16 && ROW5[i as int] == Shift8((0x50 + i) as bv32)
  {
  }

  lemma Row6Correct(i: bv8)
    requires i < 16
    ensures |ROW6| == 16 && ROW6[i as int] == Shift8((0x60 + i) as bv32)
  {
  }

  lemma Row7Correct(i: bv8)
    requires i < 16
    ensures |ROW7| == 16 && ROW7[i as int] == Shift8((0x70 + i) as bv32)
  {
  }

  lemma Row8Correct(i: bv8)
    requires i < 16
    ensures |ROW8| == 16 && ROW8[i as int] == Shift8((0x80 + i) as bv32)
  {
  }

  lemma Row9Correct(i: bv8)
    requires i < 16
    ensures |ROW9| == 16 && ROW9[i as int] == Shift8((0x90 + i) as bv32)
  {
  }

  lemma RowACorrect(i: bv8)
    requires i < 16
    ensures |ROWA| == 16 && ROWA[i as int] == Shift8((0xA0 + i) as bv32)
  {
  }

  lemma RowBCorrect(i: bv8)
    requires i < 16
    ensures |ROWB| == 16 && ROWB[i as int] == Shift8((0xB0 + i) as bv32)
  {
  }

  lemma RowCCorrect(i: bv8)
    requires i < 16
    ensures |ROWC| == 16 && ROWC[i as int] == Shift8((0xC0 + i) as bv32)
  {
  }

  lemma RowDCorrect(i: bv8)
    requires i < 16
    ensures |ROWD| == 16 && ROWD[i as int] == Shift8((0xD0 + i) as bv32)
  {
  }

  lemma RowECorrect(i: bv8)
    requires i < 16
    ensures |ROWE| == 16 && ROWE[i as int] == Shift8((0xE0 + i) as bv32)
  {
  }

  lemma RowFCorrect(i: bv8)
    requires i < 16
    ensures |ROWF| == 16 && ROWF[i as int] == Shift8((0xF0 + i) as bv32)
  {
  }

  /** Every entry of the table is the bit-serial remainder of its index. */
  lemma EntryIsShift8(i: bv8)
    ensures Entry(i) == Shift8(Word(i))
  {
    hide Shift8;
    var r, k := i >> 4, i & 15;
    assert k < 16 && (r << 4) + k == i;
    if r == 0x0 { Row0Correct(k); }
    else if r == 0x1 { Row1Correct(k); }
    else if r == 0x2 { Row2Correct(k); }
    else if r == 0x3 { Row3Correct(k); }
    else if r == 0x4 { Row4Correct(k); }
    else if r == 0x5 { Row5Correct(k); }
    else if r == 0x6 { Row6Correct(k); }
    else if r == 0x7 { Row7Correct(k); }
    else if r == 0x8 { Row8Correct(k); }
    else if r == 0x9 { Row9Correct(k); }
    else if r == 0xA { RowACorrect(k); }
    else if r == 0xB { RowBCorrect(k); }
    else if r == 0xC { RowCCorrect(k); }
    else if r == 0xD { RowDCorrect(k); }
    else if r == 0xE { RowECorrect(k); }
    else if r == 0xF { RowFCorrect(k); }
  }
}
