/** Byte order of the words the OHCI controller reads and writes in memory
    (section 4 of the Open Host Controller Interface Specification, Release
    1.0a: descriptors and the HCCA are little-endian, the CPU is big-endian). */
module Bits {

  /** Byte `k` of a word, byte 0 being the least significant. */
  function ByteOf(x: bv32, k: nat): bv8
    requires k < 4
  {
    ((if k == 0 then x else if k == 1 then x >> 8 else if k == 2 then x >> 16 else x >> 24) & 0xff) as bv8
  }

  /** The four bytes of a word, least significant first. */
  function ToBytes(x: bv32): (b: seq<bv8>)
    ensures |b| == 4
  {
    [ByteOf(x, 0), ByteOf(x, 1), ByteOf(x, 2), ByteOf(x, 3)]
  }

  /** The word whose bytes, least significant first, are `b`. */
  function FromBytes(b: seq<bv8>): bv32
    requires |b| == 4
  {
    (b[0] as bv32) | ((b[1] as bv32) << 8) | ((b[2] as bv32) << 16) | ((b[3] as bv32) << 24)
  }

  function Reverse(b: seq<bv8>): (r: seq<bv8>)
    ensures |r| == |b|
    ensures forall i :: 0 <= i < |b| ==> r[i] == b[|b| - 1 - i]
  {
    if b == [] then [] else Reverse(b[1..]) + [b[0]]
  }

  /** ACCESS_LE: the 32-bit byte swap applied to every word the controller shares. */
  function AccessLe(dword: bv32): bv32
  {
    ((dword & 0xFF00_0000) >> 24) | ((dword & 0x00FF_0000) >> 8)
    | ((dword & 0x0000_FF00) << 8) | ((dword & 0x0000_00FF) << 24)
  }

  /** A word is determined by its bytes. */
  lemma BytesDetermineWord(x: bv32)
    ensures FromBytes(ToBytes(x)) == x
  {
  }

  /** Byte k of the swapped word is byte 3 - k of the original. */
  lemma AccessLeSwapsBytes(x: bv32)
    ensures ByteOf(AccessLe(x), 0) == ByteOf(x, 3) && ByteOf(AccessLe(x), 1) == ByteOf(x, 2)
    ensures ByteOf(AccessLe(x), 2) == ByteOf(x, 1) && ByteOf(AccessLe(x), 3) == ByteOf(x, 0)
  {
  }

  /** ACCESS_LE is the byte reversal of the word. */
  lemma AccessLeReversesBytes(x: bv32)
    ensures ToBytes(AccessLe(x)) == Reverse(ToBytes(x))
    ensures AccessLe(x) == FromBytes(Reverse(ToBytes(x)))
  {
    AccessLeSwapsBytes(x);
    var r := Reverse(ToBytes(x));
    assert r == [ByteOf(x, 3), ByteOf(x, 2), ByteOf(x, 1), ByteOf(x, 0)];
    BytesDetermineWord(AccessLe(x));
  }

  /** Decoding what was encoded gives back the value: ACCESS_LE is its own inverse. */
  lemma AccessLeInvolutive(x: bv32)
    ensures AccessLe(AccessLe(x)) == x
  {
    AccessLeSwapsBytes(x);
    AccessLeSwapsBytes(AccessLe(x));
    BytesDetermineWord(x);
    BytesDetermineWord(AccessLe(AccessLe(x)));
  }

  /** ACCESS_LE commutes with the bitwise operations the driver applies to
      encoded words, so masking in controller byte order masks the value. */
  lemma AccessLeBitwise(x: bv32, y: bv32)
    ensures AccessLe(x & y) == AccessLe(x) & AccessLe(y)
    ensures AccessLe(x | y) == AccessLe(x) | AccessLe(y)
  {
    AccessLeAnd(x, y);
    AccessLeOr(x, y);
  }

  lemma AccessLeAnd(x: bv32, y: bv32)
    ensures AccessLe(x & y) == AccessLe(x) & AccessLe(y)
  {
  }

  lemma AccessLeOr(x: bv32, y: bv32)
    ensures AccessLe(x | y) == AccessLe(x) | AccessLe(y)
  {
  }
}
