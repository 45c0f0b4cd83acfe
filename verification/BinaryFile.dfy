// The container format: a header with an optional checksum, then typed blocks.
module BinaryFile {
  import opened Basics
  import Crc32
  import Words

  datatype Block = Block(type_: bv8, length: nat, startOfBody: nat)

  /** The block that stands for "no more blocks": its type is the reserved type zero. */
  const NO_BLOCK := Block(0, 0, 0)

  const CHUNK: nat := 256

  // ---- the format as functions on byte strings ----

  function LittleEndian16(lo: bv8, hi: bv8): nat { lo as int + hi as int * 256 }

  function LittleEndian32(bytes: seq<bv8>): bv32
    requires |bytes| == 4
  {
    ((((((bytes[3] as bv32) << 8) | (bytes[2] as bv32)) << 8) | (bytes[1] as bv32)) << 8)
    | (bytes[0] as bv32)
  }

  /** The block whose header starts at `pos`; None when the header is cut short. */
  function HeaderAt(bytes: seq<bv8>, pos: nat): Option<Block> {
    if pos >= |bytes| then Some(NO_BLOCK)
    else if pos + 3 > |bytes| then None
    else Some(Block(bytes[pos], LittleEndian16(bytes[pos + 1], bytes[pos + 2]), pos + 3))
  }

  function After(b: Block): nat { b.startOfBody + b.length }

  /** Looking for a block type from the block that starts at `pos`. */
  datatype Scan = Found(block: Block) | NotFound | Broken

  function ScanFrom(bytes: seq<bv8>, pos: nat, type_: bv8): Scan
    decreases |bytes| - pos
  {
    match HeaderAt(bytes, pos)
    case None => Broken
    case Some(b) =>
      if b.type_ == 0 then NotFound
      else if b.type_ == type_ then Found(b)
      else if After(b) > |bytes| then Broken
      else ScanFrom(bytes, After(b), type_)
  }

  /** The loop over the chunks counts its offset in 32 bits. */
  const OFFSET_MODULUS: nat := 0x1_0000_0000

  /** From this size on the counter comes round to zero before the end, and the place of the
      checksum field comes again. */
  const FIELD_AGAIN: nat := 0x1_0000_000A

  /** Byte i of a file of this size is taken for zero: it stands in the checksum field, or where
      the field would be if the file started anew every 2^32 bytes. */
  predicate Cleared(i: nat, size: nat) {
    6 <= i % OFFSET_MODULUS < 10 && i - i % OFFSET_MODULUS + 10 <= size
  }

  /** The file as the checksum sees it. */
  function Zeroed(bytes: seq<bv8>): (zeroed: seq<bv8>)
    ensures |zeroed| == |bytes|
  {
    seq(|bytes|, i requires 0 <= i < |bytes| => if Cleared(i, |bytes|) then 0 else bytes[i])
  }

  function Checksum(bytes: seq<bv8>): bv32 { Crc32.Update(0, Zeroed(bytes)) }

  const MAGIC: seq<bv8> := [0x73, 0x6b, 0x79, 0x62]  // "skyb"

  /** What the header says: the feature bits, and where the first block starts. */
  datatype Preamble = Preamble(version: bv8, features: bv8, firstBlock: nat)

  function ReadPreamble(bytes: seq<bv8>): Option<Preamble> {
    if |bytes| < 5 || bytes[..4] != MAGIC then None
    else if bytes[4] == 1 then Some(Preamble(1, 0, 5))
    else if bytes[4] != 2 || |bytes| < 6 then None
    else if bytes[5] & 1 == 0 then Some(Preamble(2, bytes[5], 6))
    else if |bytes| < 10 then None
    else Some(Preamble(2, bytes[5], 10))
  }

  /** Whether opening the file succeeds, or why not. */
  function OpenStatus(bytes: seq<bv8>): Status {
    match ReadPreamble(bytes)
    case None => EParse
    case Some(p) =>
      if p.features & 1 != 0 && LittleEndian32(bytes[6..10]) != Checksum(bytes) then ECorrupted
      else if HeaderAt(bytes, p.firstBlock).None? then ERead
      else Success
  }

  // ---- files built from blocks ----

  /** A block to be stored: its type, the length of its body, low byte first, and the body. */
  datatype Content = Content(type_: bv8, body: seq<bv8>)
  {
    predicate Legal() { type_ != 0 && |body| < 0x10000 }

    function Bytes(): seq<bv8>
      requires Legal()
    {
      [type_, (|body| % 256) as bv8, (|body| / 256) as bv8] + body
    }
  }

  lemma LengthRead(n: nat)
    requires n < 0x10000
    ensures LittleEndian16((n % 256) as bv8, (n / 256) as bv8) == n
  {
    Words.ByteKept(n % 256);
    Words.ByteKept(n / 256);
  }

  ghost predicate AllLegal(cs: seq<Content>) { forall i :: 0 <= i < |cs| ==> cs[i].Legal() }

  function Concat(cs: seq<Content>): seq<bv8>
    requires AllLegal(cs)
  {
    if cs == [] then [] else cs[0].Bytes() + Concat(cs[1..])
  }

  /** Offset of the k-th block in a file whose blocks start at `first`. */
  function OffsetOf(cs: seq<Content>, first: nat, k: nat): nat
    requires k <= |cs|
  {
    if k == 0 then first else OffsetOf(cs[1..], first + 3 + |cs[0].body|, k - 1)
  }

  /** A block that stands in a file is read back: header and body. */
  lemma BlockAt(file: seq<bv8>, pos: nat, c: Content, rest: seq<bv8>)
    requires c.Legal() && pos <= |file| && file[pos..] == c.Bytes() + rest
    ensures HeaderAt(file, pos) == Some(Block(c.type_, |c.body|, pos + 3))
    ensures pos + 3 + |c.body| <= |file| && file[pos + 3..pos + 3 + |c.body|] == c.body
    ensures file[pos + 3 + |c.body|..] == rest
  {
    hide LittleEndian16;
    LengthRead(|c.body|);
    SuffixAt(file, pos, c.Bytes() + rest);
    SuffixSplit(file, pos, c.Bytes()[..3], c.body, rest);
  }

  lemma SuffixAt(file: seq<bv8>, pos: nat, tail: seq<bv8>)
    requires pos <= |file| && file[pos..] == tail && |tail| >= 3
    ensures file[pos] == tail[0] && file[pos + 1] == tail[1] && file[pos + 2] == tail[2]
  {
    assert file[pos] == file[pos..][0];
    assert file[pos + 1] == file[pos..][1];
    assert file[pos + 2] == file[pos..][2];
  }

  lemma SuffixSplit(file: seq<bv8>, pos: nat, a: seq<bv8>, b: seq<bv8>, c: seq<bv8>)
    requires pos <= |file| && file[pos..] == a + b + c
    ensures pos + |a| + |b| <= |file| && file[pos + |a|..pos + |a| + |b|] == b
    ensures file[pos + |a| + |b|..] == c
  {
    var tail := file[pos..];
    assert file[pos + |a|..pos + |a| + |b|] == tail[|a|..|a| + |b|];
    assert tail[|a|..|a| + |b|] == b;
    assert file[pos + |a| + |b|..] == tail[|a| + |b|..];
    assert tail[|a| + |b|..] == c;
  }

  /** Iteration visits exactly the blocks that were written, in order: the k-th header is the
      k-th block's, its body follows it, the next header starts where the body ends, and
      after the last block there is none. */
  lemma {:induction false} IterationVisits(file: seq<bv8>, first: nat, cs: seq<Content>, k: nat)
    requires AllLegal(cs) && first <= |file| && file[first..] == Concat(cs) && k <= |cs|
    ensures var pos := OffsetOf(cs, first, k);
            pos <= |file| &&
            if k == |cs| then HeaderAt(file, pos) == Some(NO_BLOCK)
            else HeaderAt(file, pos) == Some(Block(cs[k].type_, |cs[k].body|, pos + 3))
                 && pos + 3 + |cs[k].body| <= |file|
                 && file[pos + 3..pos + 3 + |cs[k].body|] == cs[k].body
                 && After(HeaderAt(file, pos).value) == OffsetOf(cs, first, k + 1)
    decreases k
  {
    hide HeaderAt;
    if cs == [] {
      NoHeader(file, first);
    } else {
      BlockAt(file, first, cs[0], Concat(cs[1..]));
      if k > 0 {
        IterationVisits(file, first + 3 + |cs[0].body|, cs[1..], k - 1);
      } else {
        assert OffsetOf(cs[1..], first + 3 + |cs[0].body|, 0) == OffsetOf(cs, first, 1);
      }
    }
  }

  lemma NoHeader(file: seq<bv8>, pos: nat)
    requires pos <= |file| && file[pos..] == []
    ensures HeaderAt(file, pos) == Some(NO_BLOCK)
  {
  }

  /** Index of the first block of a type, or the number of blocks. */
  function FirstOf(cs: seq<Content>, type_: bv8): (k: nat)
    ensures k <= |cs|
    ensures k < |cs| ==> cs[k].type_ == type_
    ensures forall i :: 0 <= i < k ==> cs[i].type_ != type_
  {
    if cs == [] || cs[0].type_ == type_ then 0 else 1 + FirstOf(cs[1..], type_)
  }

  /** The search finds the leftmost block of the type, or reports that there is none. */
  lemma {:induction false} ScanFindsFirst(file: seq<bv8>, first: nat, cs: seq<Content>, type_: bv8)
    requires AllLegal(cs) && first <= |file| && file[first..] == Concat(cs)
    ensures var k := FirstOf(cs, type_);
            ScanFrom(file, first, type_)
            == if k == |cs| then NotFound
               else Found(Block(type_, |cs[k].body|, OffsetOf(cs, first, k) + 3))
    decreases |cs|
  {
    hide HeaderAt;
    if cs == [] {
      NoHeader(file, first);
    } else {
      BlockAt(file, first, cs[0], Concat(cs[1..]));
      if cs[0].type_ != type_ {
        ScanFindsFirst(file, first + 3 + |cs[0].body|, cs[1..], type_);
      }
    }
  }

  /** A file made of a readable header, a right checksum (where there is one) and blocks
      opens, whatever the blocks are. */
  lemma BuiltFileOpens(file: seq<bv8>, cs: seq<Content>)
    requires ReadPreamble(file).Some? && AllLegal(cs)
    requires var p := ReadPreamble(file).value;
             (p.features & 1 != 0 ==> LittleEndian32(file[6..10]) == Checksum(file))
             && p.firstBlock <= |file| && file[p.firstBlock..] == Concat(cs)
    ensures OpenStatus(file) == Success
    ensures var first := ReadPreamble(file).value.firstBlock;
            HeaderAt(file, first)
            == Some(if cs == [] then NO_BLOCK else Block(cs[0].type_, |cs[0].body|, first + 3))
  {
    hide LittleEndian32, Checksum;
    IterationVisits(file, ReadPreamble(file).value.firstBlock, cs, 0);
  }

  /** The header of a version 1 file, of a version 2 file without a checksum, and of one with. */
  lemma PreambleRead(file: seq<bv8>, features: bv8, field: seq<bv8>)
    requires |field| == 4
    ensures MAGIC + [1] <= file ==> ReadPreamble(file) == Some(Preamble(1, 0, 5))
    ensures MAGIC + [2, features] <= file && features & 1 == 0 ==>
              ReadPreamble(file) == Some(Preamble(2, features, 6))
    ensures MAGIC + [2, features] + field <= file && features & 1 != 0 ==>
              ReadPreamble(file) == Some(Preamble(2, features, 10)) && file[6..10] == field
  {
    if MAGIC + [1] <= file { HeaderBytes(file, MAGIC + [1]); }
    if MAGIC + [2, features] <= file { HeaderBytes(file, MAGIC + [2, features]); }
    if MAGIC + [2, features] + field <= file {
      HeaderBytes(file, MAGIC + [2, features] + field);
      assert file[6..10] == file[..10][6..] == field;
    }
  }

  /** Everything else is refused. */
  lemma PreambleRefused(file: seq<bv8>)
    ensures ReadPreamble(file) == None
            <==> !(MAGIC + [1] <= file)
                 && !(|file| >= 6 && MAGIC + [2, file[5]] <= file && (file[5] & 1 == 0 || |file| >= 10))
  {
    if |file| >= 5 { assert MAGIC + [1] <= file <==> file[..4] == MAGIC && file[4] == 1; }
    if |file| >= 6 { assert MAGIC + [2, file[5]] <= file <==> file[..4] == MAGIC && file[4] == 2; }
  }

  lemma HeaderBytes(file: seq<bv8>, header: seq<bv8>)
    requires MAGIC <= header <= file
    ensures file[..4] == MAGIC && forall i :: 0 <= i < |header| ==> file[i] == header[i]
  {
  }

  /** A file of version 1 made of blocks: it opens, the first block is current, and the search for
      a type finds the first block of that type. */
  lemma VersionOneFile(cs: seq<Content>, type_: bv8)
    requires AllLegal(cs)
    ensures var file, k := MAGIC + [1] + Concat(cs), FirstOf(cs, type_);
            OpenStatus(file) == Success
            && HeaderAt(file, 5) == Some(if cs == [] then NO_BLOCK else Block(cs[0].type_, |cs[0].body|, 8))
            && ScanFrom(file, 5, type_)
               == if k == |cs| then NotFound else Found(Block(type_, |cs[k].body|, OffsetOf(cs, 5, k) + 3))
  {
    var file := MAGIC + [1] + Concat(cs);
    PreambleRead(file, 0, [0, 0, 0, 0]);
    assert file[5..] == Concat(cs);
    NoFeatures();
    BuiltFileOpens(file, cs);
    ScanFindsFirst(file, 5, cs, type_);
  }

  /** For instance: a block of type 1 with two bytes, and an empty one of type 2, which is found. */
  lemma SecondBlockFound()
    ensures var file := [0x73, 0x6b, 0x79, 0x62, 1, 1, 2, 0, 0xAA, 0xBB, 2, 0, 0];
            OpenStatus(file) == Success && ScanFrom(file, 5, 2) == Found(Block(2, 0, 13))
  {
    var first, second := Content(1, [0xAA, 0xBB]), Content(2, []);
    var cs := [first, second];
    assert cs[1..] == [second] && [second][1..] == [];
    assert Concat([second]) == [2, 0, 0];
    assert first.Bytes() == [1, 2, 0, 0xAA, 0xBB];
    assert MAGIC + [1] + Concat(cs) == [0x73, 0x6b, 0x79, 0x62, 1, 1, 2, 0, 0xAA, 0xBB, 2, 0, 0];
    assert OffsetOf(cs, 5, 1) == OffsetOf(cs[1..], 10, 0);
    VersionOneFile(cs, 2);
  }

  // ---- damage is noticed ----

  /** A same-length change within four consecutive bytes behind the checksum field. */
  ghost predicate BurstChange(file: seq<bv8>, damaged: seq<bv8>, at: nat) {
    && at >= 10 && at <= |file| == |damaged| && file != damaged
    && forall i :: 0 <= i < |file| && !(at <= i < at + 4) ==> file[i] == damaged[i]
  }

  /** Some byte that the checksum looks at differs. */
  ghost predicate Looked(file: seq<bv8>, damaged: seq<bv8>)
    requires |file| == |damaged|
  {
    exists i :: 0 <= i < |file| && file[i] != damaged[i] && !Cleared(i, |file|)
  }

  /** If a file's checksum is right, a file that differs from it in such a burst is rejected as
      corrupted if and only if the checksum looks at a byte that differs. It looks at all of them
      in files of up to 2^32 + 9 bytes. */
  lemma DamageRejected(file: seq<bv8>, damaged: seq<bv8>, at: nat)
    requires ReadPreamble(file).Some? && ReadPreamble(file).value.features & 1 != 0
    requires OpenStatus(file) != ECorrupted
    requires BurstChange(file, damaged, at)
    ensures OpenStatus(damaged) == ECorrupted <==> Looked(file, damaged)
    ensures |file| < FIELD_AGAIN ==> OpenStatus(damaged) == ECorrupted
  {
    hide Zeroed, Checksum, Crc32.Update, Cleared;
    SamePreamble(file, damaged, at);
    if Looked(file, damaged) { ChecksumChanges(file, damaged, at); } else { ChecksumStays(file, damaged); }
    if |file| < FIELD_AGAIN { SmallFileLooked(file, damaged, at); }
  }

  lemma SmallFileLooked(file: seq<bv8>, damaged: seq<bv8>, at: nat)
    requires BurstChange(file, damaged, at) && |file| < FIELD_AGAIN
    ensures Looked(file, damaged)
  {
    ClearedOnce(|file|);
    var i :| 0 <= i < |file| && file[i] != damaged[i];
    assert !Cleared(i, |file|);
  }

  lemma SamePreamble(file: seq<bv8>, damaged: seq<bv8>, at: nat)
    requires BurstChange(file, damaged, at)
    ensures ReadPreamble(damaged) == ReadPreamble(file)
    ensures |file| >= 10 ==> file[6..10] == damaged[6..10]
  {
    if |file| >= 10 { assert file[..4] == damaged[..4]; }
  }

  lemma ChecksumChanges(file: seq<bv8>, damaged: seq<bv8>, at: nat)
    requires BurstChange(file, damaged, at) && Looked(file, damaged)
    ensures Checksum(file) != Checksum(damaged)
  {
    hide Crc32.Update, Cleared;
    var end := if at + 4 <= |file| then at + 4 else |file|;
    var x, y := Zeroed(file), Zeroed(damaged);
    var a, b := x[at..end], y[at..end];
    assert x[..at] == y[..at] && x[end..] == y[end..];
    assert x == x[..at] + a + x[end..] && y == x[..at] + b + x[end..];
    var i :| 0 <= i < |file| && file[i] != damaged[i] && !Cleared(i, |file|);
    assert x[i] == a[i - at] && y[i] == b[i - at];
    Crc32.BurstDetected(0, x[..at], a, b, x[end..]);
  }

  lemma ChecksumStays(file: seq<bv8>, damaged: seq<bv8>)
    requires |file| == |damaged| && !Looked(file, damaged)
    ensures Checksum(file) == Checksum(damaged)
  {
    hide Crc32.Update, Cleared;
    forall i | 0 <= i < |file| ensures Zeroed(file)[i] == Zeroed(damaged)[i] {}
    assert Zeroed(file) == Zeroed(damaged);
  }

  // ---- the bytes that the checksum does not look at ----

  /** The file with its checksum field, if it can hold one, replaced by zeros. */
  function FieldZeroed(bytes: seq<bv8>): seq<bv8> {
    if |bytes| >= 10 then bytes[..6] + [0, 0, 0, 0] + bytes[10..] else bytes
  }

  /** The checksum passes over its own field alone exactly in files of up to 2^32 + 9 bytes. */
  lemma ClearedOnce(size: nat)
    ensures (forall i: nat :: Cleared(i, size) ==> i < 10) <==> size < FIELD_AGAIN
  {
    if size >= FIELD_AGAIN { assert Cleared(OFFSET_MODULUS + 6, size); }
  }

  /** The checksum of a file of at most 2^32 + 9 bytes is the remainder of the bit-serial division
      from zero of the file with zeros for the checksum. */
  lemma ChecksumIsRemainder(file: seq<bv8>)
    requires 10 <= |file| < FIELD_AGAIN
    ensures Checksum(file) == Crc32.BitSerial(0, file[..6] + [0, 0, 0, 0] + file[10..])
  {
    SmallFileZeroed(file);
    Crc32.UpdateIsBitSerial(0, FieldZeroed(file));
  }

  lemma SmallFileZeroed(bytes: seq<bv8>)
    requires |bytes| < FIELD_AGAIN
    ensures Zeroed(bytes) == FieldZeroed(bytes)
  {
    forall i | 0 <= i < |bytes| ensures Zeroed(bytes)[i] == FieldZeroed(bytes)[i] {
      ClearedOnce(|bytes|);
      if Cleared(i, |bytes|) { assert 6 <= i < 10; }
    }
  }

  function Bytes32(v: bv32): (b: seq<bv8>)
    ensures |b| == 4
  {
    [(v & 0xFF) as bv8, ((v >> 8) & 0xFF) as bv8, ((v >> 16) & 0xFF) as bv8, ((v >> 24) & 0xFF) as bv8]
  }

  lemma Bytes32Read(v: bv32)
    ensures LittleEndian32(Bytes32(v)) == v
  {
  }

  function LargeFile(field: seq<bv8>): (file: seq<bv8>)
    requires |field| == 4
    ensures |file| == FIELD_AGAIN
  {
    MAGIC + [2, 1] + field + seq(OFFSET_MODULUS, _ => 0)
  }

  /** A file of 2^32 + 10 bytes in which one byte may change and is not missed. */
  lemma LargeFileDeparts() returns (file: seq<bv8>, damaged: seq<bv8>)
    ensures |file| == FIELD_AGAIN && BurstChange(file, damaged, OFFSET_MODULUS + 6)
    ensures OpenStatus(file) == Success && OpenStatus(damaged) == Success
  {
    hide Crc32.Update, LittleEndian32, Bytes32;
    var crc := Checksum(LargeFile([0, 0, 0, 0]));
    file := LargeFile(Bytes32(crc));
    damaged := file[OFFSET_MODULUS + 6 := 1];
    Bytes32Read(crc);
    LargeFileParts(Bytes32(crc));
    ChecksumStays(LargeFile([0, 0, 0, 0]), file);
    assert file[OFFSET_MODULUS + 6] == 0 && damaged[OFFSET_MODULUS + 6] == 1;
    ChecksumStays(file, damaged);
    SamePreamble(file, damaged, OFFSET_MODULUS + 6);
  }

  lemma LargeFileParts(field: seq<bv8>)
    requires |field| == 4
    ensures var file := LargeFile(field);
            ReadPreamble(file) == Some(Preamble(2, 1, 10)) && file[6..10] == field
            && forall i :: 10 <= i < FIELD_AGAIN ==> file[i] == 0
  {
    assert LargeFile(field)[..4] == MAGIC;
    assert 1 as bv8 & 1 == 1;
  }

  // ---- the parser ----

  class Parser {
    const buf: array<bv8>
    /** How many bytes of `buf` belong to the file. */
    const size: nat
    var pos: nat
    var version: bv8
    var features: bv8
    var startOfFirstBlock: nat
    var currentBlock: Block

    ghost predicate Valid()
      reads this
    {
      pos <= size <= buf.Length && startOfFirstBlock <= size
    }

    ghost function Bytes(): seq<bv8>
      requires Valid()
      reads this, buf
    {
      buf[..size]
    }

    constructor (buf: array<bv8>, nbytes: nat)
      requires nbytes <= buf.Length
      ensures Valid() && this.buf == buf && size == nbytes && pos == 0
    {
      this.buf, size, pos := buf, nbytes, 0;
      version, features, startOfFirstBlock, currentBlock := 0, 0, 0, NO_BLOCK;
    }

    /** Copies at most `nbytes` bytes and moves past them. */
    method Read(dest: array<bv8>, nbytes: nat) returns (count: nat)
      requires Valid() && nbytes <= dest.Length && dest != buf
      modifies this`pos, dest
      ensures Valid() && count == Min(nbytes, size - old(pos)) && pos == old(pos) + count
      ensures dest[..count] == Bytes()[old(pos)..pos]
      ensures dest[count..] == old(dest[count..])
    {
      count := Min(nbytes, size - pos);
      forall i | 0 <= i < count {
        dest[i] := buf[pos + i];
      }
      assert dest[..count] == buf[pos..pos + count];
      pos := pos + count;
    }

    method Seek(offset: nat) returns (status: Status)
      requires Valid()
      modifies this`pos
      ensures Valid()
      ensures status == if offset > size then ERead else Success
      ensures pos == if offset > size then old(pos) else offset
    {
      if offset > size { return ERead; }
      pos := offset;
      status := Success;
    }

    method ReadNextBlockHeader() returns (status: Status)
      requires Valid()
      modifies this`pos, this`currentBlock
      ensures Valid()
      ensures status == if HeaderAt(Bytes(), old(pos)).None? then ERead else Success
      ensures status == Success ==> Some(currentBlock) == HeaderAt(Bytes(), old(pos))
    {
      var type_, length := new bv8[1], new bv8[2];
      var bytesRead := Read(type_, 1);
      if bytesRead == 0 {
        currentBlock := NO_BLOCK;
      } else {
        assert type_[..1][0] == Bytes()[old(pos)];
        currentBlock := currentBlock.(type_ := type_[0]);
        var n := Read(length, 2);
        if n != 2 { return ERead; }
        assert length[..2][0] == Bytes()[old(pos) + 1] && length[..2][1] == Bytes()[old(pos) + 2];
        currentBlock := currentBlock.(length := LittleEndian16(length[0], length[1]), startOfBody := pos);
      }
      status := Success;
    }

    method RewindToFirstBlock() returns (status: Status)
      requires Valid()
      modifies this`pos, this`currentBlock
      ensures Valid()
      ensures status == if HeaderAt(Bytes(), startOfFirstBlock).None? then ERead else Success
      ensures status == Success ==> Some(currentBlock) == HeaderAt(Bytes(), startOfFirstBlock)
    {
      var _ := Seek(startOfFirstBlock);
      status := ReadNextBlockHeader();
    }

    /** Where it goes depends on the current block alone, not on what was read since. */
    method SeekToNextBlock() returns (status: Status)
      requires Valid()
      modifies this`pos, this`currentBlock
      ensures Valid()
      ensures var b := old(currentBlock);
              if b.type_ == 0 || After(b) > size then status == ERead && currentBlock == b
              else status == (if HeaderAt(Bytes(), After(b)).None? then ERead else Success)
                   && (status == Success ==> Some(currentBlock) == HeaderAt(Bytes(), After(b)))
    {
      if currentBlock.type_ == 0 { return ERead; }
      status := Seek(currentBlock.startOfBody + currentBlock.length);
      if status != Success { return; }
      status := ReadNextBlockHeader();
    }

    /** Reading a body leaves the current block in place. */
    method ReadCurrentBlock(dest: array<bv8>) returns (status: Status)
      requires Valid() && currentBlock.length <= dest.Length && dest != buf
      modifies this`pos, dest
      ensures Valid()
      ensures var b := currentBlock;
              status == (if b.type_ == 0 || After(b) > size then ERead else Success)
              && (status == Success ==> dest[..b.length] == Bytes()[b.startOfBody..After(b)])
    {
      if currentBlock.type_ == 0 { return ERead; }
      status := Seek(currentBlock.startOfBody);
      if status != Success { return; }
      var bytesRead := Read(dest, currentBlock.length);
      if bytesRead != currentBlock.length { return ERead; }
      status := Success;
    }

    /** From any state: the leftmost block of the type, or "not found". */
    method FindFirstBlockByType(type_: bv8) returns (status: Status)
      requires Valid()
      modifies this`pos, this`currentBlock
      ensures Valid()
      ensures match ScanFrom(Bytes(), startOfFirstBlock, type_)
              case Found(b) => status == Success && currentBlock == b
              case NotFound => status == ENoEnt
              case Broken => status == ERead
    {
      status := RewindToFirstBlock();
      if status != Success { return; }
      ghost var at := startOfFirstBlock;
      while true
        invariant Valid() && at <= size && HeaderAt(Bytes(), at) == Some(currentBlock)
        invariant ScanFrom(Bytes(), at, type_) == ScanFrom(Bytes(), startOfFirstBlock, type_)
        decreases size - at
      {
        if currentBlock.type_ == 0 { return ENoEnt; }
        if currentBlock.type_ == type_ { return Success; }
        ghost var next := After(currentBlock);
        status := SeekToNextBlock();
        if status != Success { return; }
        at := next;
      }
    }

    /** The checksum of the file, read in chunks of 256 bytes. Up to a size of 2^32 + 9 bytes it is
        that of the file with the checksum field zeroed. */
    method GetCrc32() returns (checksum: bv32)
      requires Valid()
      modifies this`pos
      ensures Valid() && pos == old(pos) && checksum == Checksum(Bytes())
      ensures size < FIELD_AGAIN ==> checksum == Crc32.Update(0, FieldZeroed(Bytes()))
    {
      hide Crc32.Update, Zeroed, FieldZeroed;
      var originalOffset, offset := pos, 0;
      var chunk := new bv8[CHUNK];
      var _ := Seek(0);
      checksum := 0;
      ghost var zeroed := Zeroed(Bytes());
      NothingRead(Bytes());
      while true
        invariant Valid() && fresh(chunk) && chunk.Length == CHUNK
        invariant pos % CHUNK == 0 && offset == pos % OFFSET_MODULUS
        invariant checksum == Crc32.Update(0, zeroed[..pos])
        decreases size - pos
      {
        ghost var start := pos;
        var bytesRead := ReadChunk(chunk, offset);
        Crc32.UpdateConcat(0, zeroed[..start], chunk[..bytesRead]);
        offset := (offset + bytesRead) % OFFSET_MODULUS;
        if bytesRead > 0 {
          checksum := Crc32.ApCrc32Update(checksum, chunk, bytesRead);
        } else {
          Crc32.UpdateNothing(checksum);
          assert chunk[..0] == [];
        }
        if bytesRead < CHUNK { break; }
        NextChunk(start);
      }
      assert zeroed[..pos] == zeroed;
      if size < FIELD_AGAIN { SmallFileZeroed(Bytes()); }
      var _ := Seek(originalOffset);
    }

    /** One chunk of the file, with its bytes 6 to 9 zeroed when the counter stands at zero. */
    method ReadChunk(chunk: array<bv8>, offset: nat) returns (bytesRead: nat)
      requires Valid() && chunk.Length == CHUNK && chunk != buf
      requires pos % CHUNK == 0 && offset == pos % OFFSET_MODULUS
      modifies this`pos, chunk
      ensures Valid() && bytesRead == Min(CHUNK, size - old(pos)) && pos == old(pos) + bytesRead
      ensures Zeroed(Bytes())[..pos] == Zeroed(Bytes())[..old(pos)] + chunk[..bytesRead]
    {
      ghost var start := pos;
      bytesRead := Read(chunk, CHUNK);
      if offset == 0 && bytesRead >= 10 {
        chunk[6], chunk[7], chunk[8], chunk[9] := 0, 0, 0, 0;
      }
      ChunkOfZeroed(Bytes(), start, bytesRead, chunk[..bytesRead]);
    }

    /** Reads one byte, or reports that there is none. */
    method ReadByte() returns (ok: bool, b: bv8)
      requires Valid()
      modifies this`pos
      ensures Valid() && ok == (old(pos) < size)
      ensures ok ==> b == Bytes()[old(pos)] && pos == old(pos) + 1
    {
      var cell := new bv8[1];
      var n := Read(cell, 1);
      if n != 1 { return false, 0; }
      assert cell[..1][0] == Bytes()[old(pos)];
      ok, b := true, cell[0];
    }

    method ReadFour() returns (ok: bool, four: seq<bv8>)
      requires Valid()
      modifies this`pos
      ensures Valid() && ok == (old(pos) + 4 <= size)
      ensures ok ==> pos == old(pos) + 4 && four == Bytes()[old(pos)..pos] && |four| == 4
    {
      var cells := new bv8[4];
      var n := Read(cells, 4);
      ok, four := n == 4, cells[..];
      assert ok ==> cells[..] == cells[..n];
    }

    /** Magic, version, feature bits and, if there is one, the expected checksum. */
    method InitPreamble() returns (ok: bool, expected: bv32)
      requires Valid() && pos == 0
      modifies this`pos, this`version, this`features
      ensures Valid() && ok == ReadPreamble(Bytes()).Some?
      ensures ok ==> ReadPreamble(Bytes()) == Some(Preamble(version, features, pos))
      ensures ok && features & 1 != 0 ==> pos == 10 && expected == LittleEndian32(Bytes()[6..10])
    {
      hide LittleEndian32;
      expected := 0;
      var magic: seq<bv8>;
      ok, magic := ReadFour();
      if !ok || magic != MAGIC { return false, 0; }
      ok, version := ReadByte();
      if !ok || (version != 1 && version != 2) { return false, 0; }
      features := 0;
      if version == 2 {
        ok, features := ReadByte();
        if !ok { return; }
      } else {
        NoFeatures();
      }
      if features & 1 != 0 {
        var field: seq<bv8>;
        ok, field := ReadFour();
        if !ok { return; }
        expected := LittleEndian32(field);
      }
    }

    /** Reads and checks the header, then moves to the first block. */
    method InitCommon() returns (status: Status)
      requires Valid() && pos == 0
      modifies this
      ensures Valid() && status == OpenStatus(Bytes())
      ensures status == Success ==>
                var p := ReadPreamble(Bytes()).value;
                version == p.version && features == p.features && startOfFirstBlock == p.firstBlock
                && Some(currentBlock) == HeaderAt(Bytes(), startOfFirstBlock)
    {
      hide ReadPreamble, LittleEndian32, Checksum, HeaderAt;
      var ok, expected := InitPreamble();
      if !ok { return EParse; }
      startOfFirstBlock := pos;
      if features & 1 != 0 {
        var observed := GetCrc32();
        if expected != observed { return ECorrupted; }
      }
      status := RewindToFirstBlock();
    }
  }

  /** Opening an in-memory file. */
  method InitFromBuffer(buf: array?<bv8>, nbytes: nat) returns (status: Status, parser: Parser?)
    requires buf != null ==> nbytes <= buf.Length
    ensures status == if buf == null then EInval else OpenStatus(buf[..nbytes])
    ensures buf != null ==> parser != null && fresh(parser) && parser.Valid() && parser.buf == buf
                            && parser.size == nbytes
    ensures status == Success ==>
              Some(parser.currentBlock) == HeaderAt(parser.Bytes(), parser.startOfFirstBlock)
              && parser.startOfFirstBlock == ReadPreamble(parser.Bytes()).value.firstBlock
  {
    if buf == null { return EInval, null; }
    parser := new Parser(buf, nbytes);
    status := parser.InitCommon();
  }

  lemma NoFeatures()
    ensures 0 as bv8 & 1 == 0
  {
  }

  lemma NothingRead(bytes: seq<bv8>)
    ensures Crc32.Update(0, Zeroed(bytes)[..0]) == 0
  {
  }

  lemma NextChunk(start: nat)
    requires start % CHUNK == 0
    ensures (start + CHUNK) % CHUNK == 0
    ensures (start % OFFSET_MODULUS + CHUNK) % OFFSET_MODULUS == (start + CHUNK) % OFFSET_MODULUS
  {
    InChunk(start, CHUNK - 1);
    Rounds(start / OFFSET_MODULUS, start % OFFSET_MODULUS, start);
    StillAligned(start);
  }

  lemma StillAligned(start: nat)
    requires start % CHUNK == 0
    ensures (start + CHUNK) % CHUNK == 0
  {
  }

  /** The counter one chunk later, after so many rounds. */
  lemma Rounds(q: nat, r: nat, start: nat)
    requires start == OFFSET_MODULUS * q + r && r + CHUNK <= OFFSET_MODULUS
    ensures (r + CHUNK) % OFFSET_MODULUS == (start + CHUNK) % OFFSET_MODULUS
  {
    if r + CHUNK == OFFSET_MODULUS {
      RemainderIs(start + CHUNK, q + 1, 0);
      RemainderIs(r + CHUNK, 1, 0);
    } else {
      RemainderIs(start + CHUNK, q, r + CHUNK);
      RemainderIs(r + CHUNK, 0, r + CHUNK);
    }
  }

  lemma RemainderIs(x: nat, q: nat, r: nat)
    requires x == OFFSET_MODULUS * q + r && r < OFFSET_MODULUS
    ensures x % OFFSET_MODULUS == r
  {
  }

  /** Where the bytes of a chunk stand as the counter sees it. */
  lemma InChunk(start: nat, i: nat)
    requires start % CHUNK == 0 && i < CHUNK
    ensures (start + i) % OFFSET_MODULUS == start % OFFSET_MODULUS + i
    ensures start % OFFSET_MODULUS > 0 ==> start % OFFSET_MODULUS >= CHUNK
  {
    var r := start % OFFSET_MODULUS;
    assert r % CHUNK == 0;
    assert r + i < OFFSET_MODULUS;
  }

  /** A chunk, with its bytes 6 to 9 zeroed when the counter stands at zero, is the next piece of
      what the checksum sees. */
  lemma ChunkOfZeroed(bytes: seq<bv8>, start: nat, n: nat, chunk: seq<bv8>)
    requires start % CHUNK == 0 && start + n <= |bytes| && n == Min(CHUNK, |bytes| - start) == |chunk|
    requires forall i :: 0 <= i < n ==>
               chunk[i] == if start % OFFSET_MODULUS == 0 && n >= 10 && 6 <= i < 10 then 0 else bytes[start + i]
    ensures Zeroed(bytes)[..start + n] == Zeroed(bytes)[..start] + chunk
  {
    forall i | 0 <= i < n ensures Zeroed(bytes)[start + i] == chunk[i] { InChunk(start, i); }
  }
}
