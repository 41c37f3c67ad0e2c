/** The one-block message padding built in software inside main.c's
    brute-force loop (main.c lines 137-164). The 64-byte block starts with
    the four bytes of "muuh", then the digit brut0 and up to three more
    digits brut1..brut3; a digit equal to '0' - 1 is absent. After the
    digits comes the 0x80 marker, zeros, and the message length in bits in
    the last byte, as section 5.1.1 of FIPS 180-4 pads a message shorter
    than 32 bytes. The block is static, so every pass starts from what the
    previous pass left in it. */
module Pad {

  /** An unsigned 8-bit value (u8). */
  newtype byte = x: int | 0 <= x < 256

  /** The value that marks a digit as absent: '0' - 1. */
  const ABSENT: byte := 0x2F

  /** The bytes of the block that precede the digits. */
  const PREFIX_LEN: nat := 4

  function Zeros(n: nat): (z: seq<byte>)
    ensures |z| == n
  {
    seq(n, _ => 0)
  }

  /** ca: how many of brut1..brut3 are absent. */
  function AbsentCount(b1: byte, b2: byte, b3: byte): (ca: nat)
    ensures ca <= 3
  {
    (if b1 == ABSENT then 1 else 0) + (if b2 == ABSENT then 1 else 0) + (if b3 == ABSENT then 1 else 0)
  }

  // ---- as written -----------------------------------------------------------

  /** Byte `k` of the block after the digit writes: brut0 always goes to
      byte 4, and brut1..brut3 go to bytes 5..7 only when present. */
  function DigitWritten(prev: seq<byte>, b0: byte, b1: byte, b2: byte, b3: byte, k: nat): byte
    requires |prev| == 64 && k < 64
  {
    if k == 4 then b0
    else if k == 5 && b1 != ABSENT then b1
    else if k == 6 && b2 != ABSENT then b2
    else if k == 7 && b3 != ABSENT then b3
    else prev[k]
  }

  /** The block one pass leaves, from the block `prev` the previous pass
      left: the digits, the marker at 8 - ca, zeros up to byte 62 and
      64 - 8 * ca in byte 63. */
  function PaddedAsWritten(prev: seq<byte>, b0: byte, b1: byte, b2: byte, b3: byte): (blk: seq<byte>)
    requires |prev| == 64
    ensures |blk| == 64
  {
    var ca := AbsentCount(b1, b2, b3);
    seq(64, k requires 0 <= k < 64 =>
      if k == 63 then (64 - 8 * ca) as byte
      else if k > 8 - ca then 0
      else if k == 8 - ca then 0x80
      else DigitWritten(prev, b0, b1, b2, b3, k))
  }

  /** The padding code of one pass of the loop, on the static `buffer`. */
  method PadAsWritten(buffer: array<byte>, b0: byte, b1: byte, b2: byte, b3: byte)
    requires buffer.Length == 64
    modifies buffer
    ensures buffer[..] == PaddedAsWritten(old(buffer[..]), b0, b1, b2, b3)
  {
    ghost var prev := buffer[..];
    var ca: nat := 0;
    buffer[4] := b0;
    if b1 == ABSENT {
      ca := ca + 1;
    } else {
      buffer[5] := b1;
    }
    if b2 == ABSENT {
      ca := ca + 1;
    } else {
      buffer[6] := b2;
    }
    if b3 == ABSENT {
      ca := ca + 1;
    } else {
      buffer[7] := b3;
    }
    assert forall k :: 0 <= k < 64 ==> buffer[k] == DigitWritten(prev, b0, b1, b2, b3, k);
    assert ca == AbsentCount(b1, b2, b3);
    buffer[8 - ca] := 0x80;
    var itmp := 9 - ca;
    while itmp < 63
      invariant 9 - ca <= itmp <= 63
      invariant buffer[8 - ca] == 0x80
      invariant forall k :: 0 <= k < 8 - ca || itmp <= k < 64 ==> buffer[k] == DigitWritten(prev, b0, b1, b2, b3, k)
      invariant forall k :: 9 - ca <= k < itmp ==> buffer[k] == 0
    {
      buffer[itmp] := 0;
      itmp := itmp + 1;
    }
    buffer[63] := (64 - ca * 8) as byte;
    assert forall k :: 0 <= k < 64 ==> buffer[k] == PaddedAsWritten(prev, b0, b1, b2, b3)[k];
  }

  /** The layout of the block as written: the prefix kept, brut0 in byte 4,
      the marker at 8 - ca, zeros from 9 - ca to 62 and 64 - 8 * ca in
      byte 63. */
  lemma PadAsWrittenLayout(prev: seq<byte>, b0: byte, b1: byte, b2: byte, b3: byte)
    requires |prev| == 64
    ensures var blk := PaddedAsWritten(prev, b0, b1, b2, b3);
            var ca := AbsentCount(b1, b2, b3);
            && blk[..PREFIX_LEN] == prev[..PREFIX_LEN] && blk[4] == b0
            && blk[8 - ca] == 0x80
            && (forall k :: 9 - ca <= k < 63 ==> blk[k] == 0)
            && blk[63] as int == 64 - 8 * ca
  {
  }

  /** Bytes 5, 6 and 7 below the marker: a present digit lands in its own
      byte, and an absent one leaves what the previous pass put there. */
  lemma PadAsWrittenDigits(prev: seq<byte>, b0: byte, b1: byte, b2: byte, b3: byte)
    requires |prev| == 64
    ensures var blk := PaddedAsWritten(prev, b0, b1, b2, b3);
            var ca := AbsentCount(b1, b2, b3);
            && (5 < 8 - ca ==> blk[5] == if b1 == ABSENT then prev[5] else b1)
            && (6 < 8 - ca ==> blk[6] == if b2 == ABSENT then prev[6] else b2)
            && (7 < 8 - ca ==> blk[7] == if b3 == ABSENT then prev[7] else b3)
  {
  }

  /** Where the marker, the zeros and the length go depends only on how
      many digits are absent, not on which. */
  lemma PadTailOnlyByCount(prev: seq<byte>, prev': seq<byte>, b0: byte, b1: byte, b2: byte, b3: byte,
                           c0: byte, c1: byte, c2: byte, c3: byte)
    requires |prev| == 64 && |prev'| == 64
    requires AbsentCount(b1, b2, b3) == AbsentCount(c1, c2, c3)
    ensures var ca := AbsentCount(b1, b2, b3);
            PaddedAsWritten(prev, b0, b1, b2, b3)[8 - ca..] == PaddedAsWritten(prev', c0, c1, c2, c3)[8 - ca..]
  {
    var ca := AbsentCount(b1, b2, b3);
    var blk, blk' := PaddedAsWritten(prev, b0, b1, b2, b3), PaddedAsWritten(prev', c0, c1, c2, c3);
    PadAsWrittenLayout(prev, b0, b1, b2, b3);
    PadAsWrittenLayout(prev', c0, c1, c2, c3);
    assert forall k :: 8 - ca <= k < 64 ==> blk[k] == blk'[k];
  }

  // ---- FIPS 180-4 padding -------------------------------------------------

  /** The `w` bytes of `n`, most significant first. */
  function BigEndian(n: nat, w: nat): (s: seq<byte>)
    ensures |s| == w
  {
    if w == 0 then [] else BigEndian(n / 256, w - 1) + [(n % 256) as byte]
  }

  /** A message of at most 55 bytes padded to one 512-bit block as in
      section 5.1.1 of FIPS 180-4: the message, a 1 bit and seven 0 bits,
      zeros, and the length in bits as a 64-bit big-endian number. */
  function Fips180Pad(m: seq<byte>): (blk: seq<byte>)
    requires |m| <= 55
    ensures |blk| == 64
  {
    m + [0x80] + Zeros(55 - |m|) + BigEndian(8 * |m|, 8)
  }

  /** A length below 256 takes only the last of the eight bytes. */
  lemma {:induction false} BigEndianSmall(n: nat, w: nat)
    requires n < 256 && w >= 1
    ensures BigEndian(n, w) == Zeros(w - 1) + [n as byte]
  {
    if w > 1 {
      BigEndianZero(w - 1);
    }
  }

  lemma {:induction false} BigEndianZero(w: nat)
    ensures BigEndian(0, w) == Zeros(w)
  {
    if w > 0 {
      BigEndianZero(w - 1);
    }
  }

  /** The message a padded block carries, as the length in its last byte
      says: the length field of a short message. */
  function MessageOf(blk: seq<byte>): seq<byte>
    requires |blk| == 64
  {
    blk[..if blk[63] as int / 8 <= 55 then blk[63] as int / 8 else 55]
  }

  /** A message shorter than 32 bytes is recovered from its padded block. */
  lemma PadThenMessage(m: seq<byte>)
    requires |m| < 32
    ensures MessageOf(Fips180Pad(m)) == m
  {
    var blk := Fips180Pad(m);
    BigEndianSmall(8 * |m|, 8);
    assert blk[63] == (8 * |m|) as byte;
    assert blk[..|m|] == m;
  }

  // ---- packed digits --------------------------------------------------------

  /** The present digits among brut1..brut3, in order. */
  function Present(b1: byte, b2: byte, b3: byte): (ds: seq<byte>)
    ensures |ds| == 3 - AbsentCount(b1, b2, b3)
    ensures forall i :: 0 <= i < |ds| ==> ds[i] != ABSENT
  {
    (if b1 == ABSENT then [] else [b1]) + (if b2 == ABSENT then [] else [b2]) + (if b3 == ABSENT then [] else [b3])
  }

  /** The message one pass means to hash: the prefix, brut0 and the present
      digits. */
  function Message(prefix: seq<byte>, b0: byte, b1: byte, b2: byte, b3: byte): (m: seq<byte>)
    requires |prefix| == PREFIX_LEN
    ensures |m| == 8 - AbsentCount(b1, b2, b3)
  {
    prefix + [b0] + Present(b1, b2, b3)
  }

  /** The block with the present digits packed after brut0, padded as FIPS
      180-4 prescribes. */
  function PaddedPacked(prefix: seq<byte>, b0: byte, b1: byte, b2: byte, b3: byte): (blk: seq<byte>)
    requires |prefix| == PREFIX_LEN
    ensures |blk| == 64
    ensures MessageOf(blk) == Message(prefix, b0, b1, b2, b3)
  {
    PadThenMessage(Message(prefix, b0, b1, b2, b3));
    Fips180Pad(Message(prefix, b0, b1, b2, b3))
  }

  /** The padding with the present digits packed: each present digit goes
      to the next free byte, the marker right after the last one. */
  method PadPacked(buffer: array<byte>, b0: byte, b1: byte, b2: byte, b3: byte)
    requires buffer.Length == 64
    modifies buffer
    ensures buffer[..] == PaddedPacked(old(buffer[..PREFIX_LEN]), b0, b1, b2, b3)
  {
    ghost var m := Message(buffer[..PREFIX_LEN], b0, b1, b2, b3);
    buffer[4] := b0;
    var k := 5;
    if b1 != ABSENT {
      buffer[k] := b1;
      k := k + 1;
    }
    if b2 != ABSENT {
      buffer[k] := b2;
      k := k + 1;
    }
    if b3 != ABSENT {
      buffer[k] := b3;
      k := k + 1;
    }
    assert k == |m| && buffer[..k] == m;
    buffer[k] := 0x80;
    var i := k + 1;
    while i < 63
      invariant k + 1 <= i <= 63
      invariant buffer[..k] == m && buffer[k] == 0x80
      invariant forall j :: k < j < i ==> buffer[j] == 0
    {
      buffer[i] := 0;
      i := i + 1;
    }
    buffer[63] := (8 * k) as byte;
    PackedByIndex(buffer[..], m);
  }

  /** A block that holds `m`, the marker, zeros up to 62 and the bit
      length in 63 is the FIPS 180-4 padding of `m`. */
  lemma PackedByIndex(blk: seq<byte>, m: seq<byte>)
    requires |blk| == 64 && |m| < 32
    requires blk[..|m|] == m && blk[|m|] == 0x80
    requires forall j :: |m| < j < 63 ==> blk[j] == 0
    requires blk[63] == (8 * |m|) as byte
    ensures blk == Fips180Pad(m)
  {
    var r := Fips180Pad(m);
    BigEndianSmall(8 * |m|, 8);
    assert r == m + [0x80] + Zeros(55 - |m|) + Zeros(7) + [(8 * |m|) as byte];
    forall j | 0 <= j < 64
      ensures blk[j] == r[j]
    {
      if j < |m| {
        assert blk[j] == blk[..|m|][j];
      } else if |m| < j < 56 {
        assert r[j] == Zeros(55 - |m|)[j - |m| - 1];
      } else if 56 <= j < 63 {
        assert r[j] == Zeros(7)[j - 56];
      }
    }
  }

  // ---- where the two differ -----------------------------------------------

  /** Absent digits come only after present ones. */
  predicate Trailing(b1: byte, b2: byte, b3: byte)
  {
    (b1 == ABSENT ==> b2 == ABSENT) && (b2 == ABSENT ==> b3 == ABSENT)
  }

  /** When absent digits come only last, the block as written is the FIPS
      180-4 padding of the prefix, brut0 and the present digits. */
  lemma AsWrittenPadsWhenTrailing(prev: seq<byte>, b0: byte, b1: byte, b2: byte, b3: byte)
    requires |prev| == 64 && Trailing(b1, b2, b3)
    ensures PaddedAsWritten(prev, b0, b1, b2, b3) == PaddedPacked(prev[..PREFIX_LEN], b0, b1, b2, b3)
  {
    var blk := PaddedAsWritten(prev, b0, b1, b2, b3);
    var m := Message(prev[..PREFIX_LEN], b0, b1, b2, b3);
    PadAsWrittenLayout(prev, b0, b1, b2, b3);
    PadAsWrittenDigits(prev, b0, b1, b2, b3);
    forall j | 0 <= j < |m|
      ensures blk[j] == m[j]
    {
      if j < PREFIX_LEN {
        assert blk[j] == blk[..PREFIX_LEN][j];
      }
    }
    assert blk[..|m|] == m;
    PackedByIndex(blk, m);
  }

  /** With brut1 present, brut2 absent and brut3 present, the marker lands
      on brut3 and byte 6 keeps what the previous pass left: the block as
      written hashes a 7-byte message holding that stale byte, and differs
      from the packed padding whenever the stale byte is not brut3. */
  lemma AsWrittenLosesDigit(prev: seq<byte>, b0: byte, b1: byte, b3: byte)
    requires |prev| == 64 && b1 != ABSENT && b3 != ABSENT
    ensures var blk := PaddedAsWritten(prev, b0, b1, ABSENT, b3);
            && blk[7] == 0x80 && blk[6] == prev[6] && blk[63] == 56
            && MessageOf(blk) == prev[..PREFIX_LEN] + [b0, b1, prev[6]]
            && (prev[6] != b3 ==> blk != PaddedPacked(prev[..PREFIX_LEN], b0, b1, ABSENT, b3))
  {
    var blk := PaddedAsWritten(prev, b0, b1, ABSENT, b3);
    PadAsWrittenLayout(prev, b0, b1, ABSENT, b3);
    PadAsWrittenDigits(prev, b0, b1, ABSENT, b3);
    assert MessageOf(blk) == blk[..7];
    assert blk[..7] == blk[..PREFIX_LEN] + [blk[4], blk[5], blk[6]];
    var packed := PaddedPacked(prev[..PREFIX_LEN], b0, b1, ABSENT, b3);
    assert packed[6] == b3;
  }

  /** With brut1 absent and brut2 present, byte 5 keeps what the previous
      pass left, and with brut3 absent too the marker lands on brut2: the
      block as written hashes "muuh", brut0 and the stale byte only. */
  lemma AsWrittenKeepsStale(prev: seq<byte>, b0: byte, b2: byte)
    requires |prev| == 64 && b2 != ABSENT
    ensures var blk := PaddedAsWritten(prev, b0, ABSENT, b2, ABSENT);
            && blk[6] == 0x80 && blk[5] == prev[5] && blk[63] == 48
            && MessageOf(blk) == prev[..PREFIX_LEN] + [b0, prev[5]]
  {
    var blk := PaddedAsWritten(prev, b0, ABSENT, b2, ABSENT);
    PadAsWrittenLayout(prev, b0, ABSENT, b2, ABSENT);
    PadAsWrittenDigits(prev, b0, ABSENT, b2, ABSENT);
    assert MessageOf(blk) == blk[..6];
    assert blk[..6] == blk[..PREFIX_LEN] + [blk[4], blk[5]];
  }
}
