/** The debugging hexdump of main.c: `ascii` and `hexdump`. What printf
    prints is collected as text, one line per 16 bytes: the offset in eight
    lowercase hex digits and two spaces, sixteen "%02x " slots, a space,
    sixteen character slots and a newline. */
module Dump {

  /** How many characters one line takes: 8 + 2 + 16 * 3 + 1 + 16 + 1. */
  const LINE: nat := 76

  /** Whether `c` prints as itself. */
  predicate Printable(c: bv8)
  {
    0x20 <= c <= 0x7E
  }

  /** ascii: a byte below 0x20 or above 0x7E shows as '.', any other as
      itself. */
  function Ascii(c: bv8): char
  {
    if c < 0x20 then '.'
    else if c > 0x7E then '.'
    else c as char
  }

  /** What `ascii` promises: a printable character, which is the byte
      itself exactly when the byte is printable or is '.' already. */
  lemma AsciiShows(c: bv8)
    ensures 0x20 <= Ascii(c) as int <= 0x7E
    ensures Ascii(c) == c as char <==> Printable(c) || c == 0x2E
    ensures !Printable(c) ==> Ascii(c) == '.'
  {
  }

  // ---- hex digits -----------------------------------------------------------

  function Pow16(w: nat): (p: nat)
    ensures p >= 1
  {
    if w == 0 then 1 else 16 * Pow16(w - 1)
  }

  function HexDigit(d: nat): char
    requires d < 16
  {
    if d < 10 then ('0' as int + d) as char else ('a' as int + d - 10) as char
  }

  /** The value of a lowercase hex digit. */
  function DigitValue(c: char): nat
  {
    if '0' <= c <= '9' then c as int - '0' as int
    else if 'a' <= c <= 'f' then c as int - 'a' as int + 10
    else 0
  }

  predicate IsHexDigit(c: char)
  {
    '0' <= c <= '9' || 'a' <= c <= 'f'
  }

  /** "%0<w>x": the low `w` hex digits of `n`, most significant first. */
  function Hex(n: nat, w: nat): (s: string)
    ensures |s| == w
  {
    if w == 0 then [] else Hex(n / 16, w - 1) + [HexDigit(n % 16)]
  }

  /** The number a string of hex digits spells, most significant first. */
  function HexValue(s: string): nat
  {
    if s == [] then 0 else 16 * HexValue(s[..|s| - 1]) + DigitValue(s[|s| - 1])
  }

  /** Every character "%x" prints is a lowercase hex digit. */
  lemma {:induction false} HexDigitsOnly(n: nat, w: nat)
    ensures forall i :: 0 <= i < w ==> IsHexDigit(Hex(n, w)[i])
  {
    if w > 0 {
      HexDigitsOnly(n / 16, w - 1);
      var s := Hex(n, w);
      forall i | 0 <= i < w
        ensures IsHexDigit(s[i])
      {
        if i < w - 1 {
          assert s[i] == Hex(n / 16, w - 1)[i];
        }
      }
    }
  }

  /** Reading the digits back gives the number, when it fits in `w` digits. */
  lemma {:induction false} HexRoundTrip(n: nat, w: nat)
    requires n < Pow16(w)
    ensures HexValue(Hex(n, w)) == n
  {
    if w > 0 {
      var s := Hex(n, w);
      assert s[..|s| - 1] == Hex(n / 16, w - 1);
      assert s[|s| - 1] == HexDigit(n % 16);
      HexRoundTrip(n / 16, w - 1);
    }
  }

  lemma ByteFits(b: bv8)
    ensures (b as nat) < Pow16(2)
  {
  }

  // ---- one line -------------------------------------------------------------

  /** The hex slot for byte `j`: three spaces past `len`, else "%02x ". */
  function HexSlot(data: seq<bv8>, len: int, j: nat): string
    requires j < len ==> j < |data|
  {
    if j >= len then "   " else Hex(data[j] as nat, 2) + " "
  }

  /** The character slot for byte `j`: a space past `len`, else ascii. */
  function CharSlot(data: seq<bv8>, len: int, j: nat): string
    requires j < len ==> j < |data|
  {
    if j >= len then " " else [Ascii(data[j])]
  }

  /** The first `n` hex slots of the line at `off`. */
  function HexColumn(data: seq<bv8>, len: int, off: nat, n: nat): (s: string)
    requires len <= |data|
    ensures |s| == 3 * n
  {
    if n == 0 then [] else HexColumn(data, len, off, n - 1) + HexSlot(data, len, off + n - 1)
  }

  /** The first `n` character slots of the line at `off`. */
  function CharColumn(data: seq<bv8>, len: int, off: nat, n: nat): (s: string)
    requires len <= |data|
    ensures |s| == n
  {
    if n == 0 then [] else CharColumn(data, len, off, n - 1) + CharSlot(data, len, off + n - 1)
  }

  /** The line for the sixteen bytes from `off`. */
  function Line(data: seq<bv8>, len: int, off: nat): (s: string)
    requires len <= |data|
    ensures |s| == LINE
  {
    Hex(off, 8) + "  " + HexColumn(data, len, off, 16) + " " + CharColumn(data, len, off, 16) + "\n"
  }

  /** The lines from offset `off` on, one per 16 bytes below `len`. */
  function DumpFrom(data: seq<bv8>, len: int, off: nat): string
    requires len <= |data|
    decreases len - off
  {
    if off >= len then [] else Line(data, len, off) + DumpFrom(data, len, off + 16)
  }

  /** The text hexdump(data, len) prints. */
  function HexdumpText(data: seq<bv8>, len: int): string
    requires len <= |data|
  {
    DumpFrom(data, len, 0)
  }

  /** How many lines hexdump prints: ceil(len / 16), none when len <= 0. */
  function Lines(len: int): nat
  {
    if len <= 0 then 0 else (len + 15) / 16
  }

  /** hexdump, with `data` the bytes at `d`. The loop counter `off` is an
      int that `off += 16` must not overflow. */
  method Hexdump(data: seq<bv8>, len: int) returns (out: string)
    requires len <= |data| && len < 0x7FFF_FFF1
    ensures out == HexdumpText(data, len)
  {
    out := [];
    var off := 0;
    while off < len
      invariant 0 <= off
      invariant out + DumpFrom(data, len, off) == HexdumpText(data, len)
      decreases len - off
    {
      var line := PrintLine(data, len, off);
      assert out + DumpFrom(data, len, off) == out + line + DumpFrom(data, len, off + 16);
      out := out + line;
      off := off + 16;
    }
  }

  /** One pass of hexdump's outer loop: the offset, the hex loop, the
      separator, the character loop and the newline. */
  method PrintLine(data: seq<bv8>, len: int, off: nat) returns (line: string)
    requires len <= |data|
    ensures line == Line(data, len, off)
  {
    var hex := [];
    var i := 0;
    while i < 16
      invariant 0 <= i <= 16
      invariant hex == HexColumn(data, len, off, i)
    {
      assert HexColumn(data, len, off, i + 1) == hex + HexSlot(data, len, off + i);
      if i + off >= len {
        hex := hex + "   ";
      } else {
        hex := hex + Hex(data[off + i] as nat, 2) + " ";
      }
      i := i + 1;
    }
    var chars := [];
    i := 0;
    while i < 16
      invariant 0 <= i <= 16
      invariant chars == CharColumn(data, len, off, i)
    {
      assert CharColumn(data, len, off, i + 1) == chars + CharSlot(data, len, off + i);
      if i + off >= len {
        chars := chars + " ";
      } else {
        chars := chars + [Ascii(data[off + i])];
      }
      i := i + 1;
    }
    line := Hex(off, 8) + "  " + hex + " " + chars + "\n";
  }

  // ---- what the text looks like ---------------------------------------------

  /** How many lines the dump from `off` prints. */
  function LinesFrom(len: int, off: nat): nat
    decreases len - off
  {
    if off >= len then 0 else 1 + LinesFrom(len, off + 16)
  }

  /** The lines from `off` take LINE characters each. */
  lemma {:induction false} DumpFromLength(data: seq<bv8>, len: int, off: nat)
    requires len <= |data|
    ensures |DumpFrom(data, len, off)| == LINE * LinesFrom(len, off)
    decreases len - off
  {
    if off < len {
      DumpFromLength(data, len, off + 16);
    }
  }

  /** From offset 16 * q there are ceil((len - 16 * q) / 16) lines left. */
  lemma {:induction false} LinesFromCeil(len: int, q: nat)
    ensures LinesFrom(len, 16 * q) == if 16 * q >= len then 0 else (len - 16 * q + 15) / 16
    decreases len - 16 * q
  {
    if 16 * q < len {
      LinesFromCeil(len, q + 1);
      assert 16 * (q + 1) == 16 * q + 16;
    }
  }

  /** hexdump prints ceil(len / 16) lines of LINE characters, and nothing
      when len <= 0. */
  lemma HexdumpLength(data: seq<bv8>, len: int)
    requires len <= |data|
    ensures |HexdumpText(data, len)| == LINE * Lines(len)
  {
    DumpFromLength(data, len, 0);
    LinesFromCeil(len, 0);
  }

  /** Line k exists exactly when 16 * k < len. */
  lemma LineExists(len: int, k: nat)
    ensures k < Lines(len) <==> 16 * k < len
  {
    if len > 0 {
      var q := (len + 15) / 16;
      assert 16 * q <= len + 15 < 16 * q + 16;
    }
  }

  /** Line `k` of the lines from `off` is the line at offset off + 16 * k. */
  lemma {:induction false} DumpFromLine(data: seq<bv8>, len: int, off: nat, k: nat)
    requires len <= |data| && off + 16 * k < len
    ensures |DumpFrom(data, len, off)| >= LINE * (k + 1)
    ensures DumpFrom(data, len, off)[LINE * k..LINE * (k + 1)] == Line(data, len, off + 16 * k)
    decreases k
  {
    var rest := DumpFrom(data, len, off + 16);
    if k > 0 {
      DumpFromLine(data, len, off + 16, k - 1);
      assert DumpFrom(data, len, off)[LINE * k..LINE * (k + 1)] == rest[LINE * (k - 1)..LINE * k];
    }
  }

  /** Line `k` of hexdump's text shows the sixteen bytes from 16 * k. */
  lemma HexdumpLine(data: seq<bv8>, len: int, k: nat)
    requires len <= |data| && k < Lines(len)
    ensures |HexdumpText(data, len)| >= LINE * (k + 1)
    ensures HexdumpText(data, len)[LINE * k..LINE * (k + 1)] == Line(data, len, 16 * k)
  {
    LineExists(len, k);
    LineAt(data, len, 0, k, 16 * k);
  }

  /** DumpFromLine, with the line's offset given by name. */
  lemma LineAt(data: seq<bv8>, len: int, off: nat, k: nat, at: nat)
    requires len <= |data| && at == off + 16 * k && at < len
    ensures |DumpFrom(data, len, off)| >= LINE * (k + 1)
    ensures DumpFrom(data, len, off)[LINE * k..LINE * (k + 1)] == Line(data, len, at)
  {
    DumpFromLine(data, len, off, k);
  }

  /** Slot `j` of the first `n` hex slots sits at 3 * j. */
  lemma {:induction false} HexColumnSlot(data: seq<bv8>, len: int, off: nat, n: nat, j: nat)
    requires len <= |data| && j < n
    ensures HexColumn(data, len, off, n)[3 * j..3 * j + 3] == HexSlot(data, len, off + j)
  {
    var prev := HexColumn(data, len, off, n - 1);
    var slot := HexSlot(data, len, off + n - 1);
    if j < n - 1 {
      HexColumnSlot(data, len, off, n - 1, j);
      PrefixSlice(prev, slot, 3 * j, 3 * j + 3);
    } else {
      WidthSlice(prev, slot, 3 * j, 3);
    }
  }

  /** Slot `j` of the first `n` character slots sits at j. */
  lemma {:induction false} CharColumnSlot(data: seq<bv8>, len: int, off: nat, n: nat, j: nat)
    requires len <= |data| && j < n
    ensures CharColumn(data, len, off, n)[j..j + 1] == CharSlot(data, len, off + j)
  {
    var prev := CharColumn(data, len, off, n - 1);
    var slot := CharSlot(data, len, off + n - 1);
    if j < n - 1 {
      CharColumnSlot(data, len, off, n - 1, j);
      PrefixSlice(prev, slot, j, j + 1);
    } else {
      WidthSlice(prev, slot, j, 1);
    }
  }

  lemma WidthSlice(a: string, b: string, i: nat, w: nat)
    requires |a| == i && |b| == w
    ensures (a + b)[i..i + w] == b
  {
  }

  lemma PrefixSlice(a: string, b: string, i: nat, k: nat)
    requires i <= k <= |a|
    ensures (a + b)[i..k] == a[i..k]
  {
  }

  /** The layout of the line at `off`: the offset in eight hex digits and
      two spaces; for each j < 16, byte off + j in "%02x " at 10 + 3 * j and
      as ascii at 59 + j, or three spaces and one space when off + j is past
      len; a space at 58 and a newline at the end. */
  lemma LineLayout(data: seq<bv8>, len: int, off: nat, j: nat)
    requires len <= |data| && j < 16
    ensures var s := Line(data, len, off);
            && s[..8] == Hex(off, 8) && s[8..10] == "  " && s[58] == ' ' && s[LINE - 1] == '\n'
            && (off + j < len ==> s[10 + 3 * j..13 + 3 * j] == Hex(data[off + j] as nat, 2) + " "
                                  && s[59 + j] == Ascii(data[off + j]))
            && (off + j >= len ==> s[10 + 3 * j..13 + 3 * j] == "   " && s[59 + j] == ' ')
  {
    var hex := HexColumn(data, len, off, 16);
    var chars := CharColumn(data, len, off, 16);
    LineFields(Hex(off, 8), hex, chars, j);
    HexColumnSlot(data, len, off, 16, j);
    CharColumnSlot(data, len, off, 16, j);
  }

  /** Where the fields of a line sit: the offset, the hex column from 10,
      the separator at 58, the character column from 59 and the newline. */
  lemma LineFields(o: string, hex: string, chars: string, j: nat)
    requires |o| == 8 && |hex| == 48 && |chars| == 16 && j < 16
    ensures var s := o + "  " + hex + " " + chars + "\n";
            && s[..8] == o && s[8..10] == "  " && s[58] == ' ' && s[75] == '\n'
            && s[10 + 3 * j..13 + 3 * j] == hex[3 * j..3 * j + 3]
            && s[59 + j] == chars[j..j + 1][0]
  {
  }

  /** The hex column reads back as the bytes it shows. */
  lemma LineDecodes(data: seq<bv8>, len: int, off: nat, j: nat)
    requires len <= |data| && j < 16 && off + j < len
    ensures HexValue(Line(data, len, off)[10 + 3 * j..12 + 3 * j]) == data[off + j] as nat
  {
    LineLayout(data, len, off, j);
    var s := Line(data, len, off);
    assert s[10 + 3 * j..12 + 3 * j] == s[10 + 3 * j..13 + 3 * j][..2];
    ByteFits(data[off + j]);
    HexRoundTrip(data[off + j] as nat, 2);
  }

  /** The offset column reads back as the line's offset. */
  lemma LineOffsetDecodes(data: seq<bv8>, len: int, off: nat)
    requires len <= |data| && off < 0x1_0000_0000
    ensures HexValue(Line(data, len, off)[..8]) == off
  {
    LineLayout(data, len, off, 0);
    assert Pow16(8) == 0x1_0000_0000;
    HexRoundTrip(off, 8);
  }

  /** No byte at an index at or past `len` is read: two buffers that agree
      below `len` dump the same text. */
  lemma {:induction false} DumpReadsBelowLen(d1: seq<bv8>, d2: seq<bv8>, len: int, off: nat)
    requires len <= |d1| && len <= |d2|
    requires forall j :: 0 <= j < len ==> d1[j] == d2[j]
    ensures DumpFrom(d1, len, off) == DumpFrom(d2, len, off)
    decreases len - off
  {
    if off < len {
      ColumnsReadBelowLen(d1, d2, len, off, 16);
      assert Line(d1, len, off) == Line(d2, len, off);
      DumpReadsBelowLen(d1, d2, len, off + 16);
    }
  }

  lemma {:induction false} ColumnsReadBelowLen(d1: seq<bv8>, d2: seq<bv8>, len: int, off: nat, n: nat)
    requires len <= |d1| && len <= |d2|
    requires forall j :: 0 <= j < len ==> d1[j] == d2[j]
    ensures HexColumn(d1, len, off, n) == HexColumn(d2, len, off, n)
    ensures CharColumn(d1, len, off, n) == CharColumn(d2, len, off, n)
  {
    if n > 0 {
      ColumnsReadBelowLen(d1, d2, len, off, n - 1);
    }
  }
}
