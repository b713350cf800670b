/** Bytes, fixed-width unsigned integers and their big-endian encodings. */
module Bytes {

  type byte = x: int | 0 <= x < 0x100
  type uint16 = x: int | 0 <= x < 0x1_0000
  type uint32 = x: int | 0 <= x < 0x1_0000_0000
  type uint64 = x: int | 0 <= x < 0x1_0000_0000_0000_0000

  function Put16(v: uint16): seq<byte> {
    [v / 0x100, v % 0x100]
  }

  function Put32(v: uint32): seq<byte> {
    [v / 0x100_0000, v / 0x1_0000 % 0x100, v / 0x100 % 0x100, v % 0x100]
  }

  function U16At(s: seq<byte>, i: nat): uint16
    requires i + 2 <= |s|
  {
    s[i] as int * 0x100 + s[i + 1] as int
  }

  function U32At(s: seq<byte>, i: nat): uint32
    requires i + 4 <= |s|
  {
    s[i] as int * 0x100_0000 + s[i + 1] as int * 0x1_0000 + s[i + 2] as int * 0x100 + s[i + 3] as int
  }

  /** Reading four bytes and printing them gives the same four bytes. */
  lemma Put32OfU32At(s: seq<byte>, i: nat)
    requires i + 4 <= |s|
    ensures Put32(U32At(s, i)) == s[i..i + 4]
  {
    var a: int, b: int, c: int := s[i], s[i + 1], s[i + 2];
    var v := U32At(s, i);
    assert v / 0x100_0000 == a;
    assert v / 0x1_0000 == a * 0x100 + b;
    assert v / 0x100 == a * 0x1_0000 + b * 0x100 + c;
  }

  /** Printing a number and reading the four bytes gives the number back. */
  lemma U32AtOfPut32(v: uint32)
    ensures U32At(Put32(v), 0) == v
  {
    var q: int, r: int := v / 0x1_0000, v % 0x1_0000;
    assert v / 0x100_0000 == q / 0x100;
    assert v / 0x100 % 0x100 == r / 0x100;
    assert v % 0x100 == r % 0x100;
  }

  /** Equal encodings come from equal numbers. */
  lemma Put32Injective(v: uint32, w: uint32)
    requires Put32(v) == Put32(w)
    ensures v == w
  {
    U32AtOfPut32(v);
    U32AtOfPut32(w);
  }

  /** Two or four encoded bytes in place read back as their number. */
  lemma WordAt(s: seq<byte>, off: nat, v: uint16)
    requires off + 2 <= |s| && s[off..off + 2] == Put16(v)
    ensures U16At(s, off) == v
  {
    assert s[off] == Put16(v)[0] && s[off + 1] == Put16(v)[1];
  }

  lemma LongAt(s: seq<byte>, off: nat, v: uint32)
    requires off + 4 <= |s| && s[off..off + 4] == Put32(v)
    ensures U32At(s, off) == v
  {
    Put32OfU32At(s, off);
    Put32Injective(U32At(s, off), v);
  }

  /** Go's `copy(b[off:off+len(s)], s)`. */
  method Copy(b: array<byte>, off: nat, s: seq<byte>)
    requires off + |s| <= b.Length
    modifies b
    ensures b[..] == old(b[..off]) + s + old(b[off + |s|..])
  {
    for i := 0 to |s|
      invariant b[..off] == old(b[..off])
      invariant b[off..off + i] == s[..i]
      invariant b[off + i..] == old(b[off + i..])
    {
      b[off + i] := s[i];
    }
  }
}
