// Types shared by every component: bytes, error codes, options and byte-window reasoning.
module Basics {
  type Byte = n: nat | n < 256

  /** The error codes of the library that the modelled functions return. */
  datatype Status =
    | Success | ENoMem | EInval | ERead | EParse | Failure
    | EUnimplemented | ENoEnt | ECorrupted | EOverflow

  datatype Option<+T> = None | Some(value: T)

  const INT16_MAX: int := 0x7FFF
  const INT16_MIN: int := -0x8000
  const UINT32_MODULUS: int := 0x1_0000_0000

  function Min(a: int, b: int): int { if a < b then a else b }

  function Max(a: int, b: int): int { if a < b then b else a }

  function AbsReal(x: real): real { if x < 0.0 then -x else x }

  predicate IsInt(x: real) { x == x.Floor as real }

  /** The bytes `part` stand in `whole` at offset `at`. */
  predicate At(whole: seq<Byte>, at: nat, part: seq<Byte>) {
    at + |part| <= |whole| && whole[at..at + |part|] == part
  }

  /** A window that holds a concatenation holds both halves, one after the other. */
  lemma AtSplit(whole: seq<Byte>, at: nat, a: seq<Byte>, b: seq<Byte>)
    requires At(whole, at, a + b)
    ensures At(whole, at, a) && At(whole, at + |a|, b)
  {
    var w := whole[at..at + |a| + |b|];
    assert w == a + b;
    assert whole[at..at + |a|] == w[..|a|];
    assert whole[at + |a|..at + |a| + |b|] == w[|a|..];
  }

  lemma AtIndex(whole: seq<Byte>, at: nat, part: seq<Byte>, i: nat)
    requires At(whole, at, part) && i < |part|
    ensures whole[at + i] == part[i]
  {
    assert whole[at..at + |part|][i] == part[i];
  }

  lemma AtBound(whole: seq<Byte>, at: nat, part: seq<Byte>)
    requires At(whole, at, part)
    ensures at + |part| <= |whole|
    ensures part != [] ==> whole[at] == part[0]
  {
    if part != [] { AtIndex(whole, at, part, 0); }
  }
}
