/** Memory-mapped register traffic and the CPU's external-interrupt enable.
    A register file maps 32-bit addresses to 32-bit values; everything the
    driver does to the hardware is appended to a trace, in order. */
module Mmio {

  /** A physical register address. Addresses are kept as numbers (maps keyed
      by bit-vectors lose key disequalities in the verifier). */
  type Addr = nat

  /** The state captured by a critical-section entry: whether external
      interrupts were enabled before it. */
  datatype Cookie = Cookie(wasEnabled: bool)

  /** One observable step of the driver. */
  datatype Event =
    | Write(addr: Addr, value: bv32)   // write32 to a register
    | IsrDisable(cookie: Cookie)       // critical-section entry
    | IsrEnable                        // global interrupt enable
    | IsrRestore(cookie: Cookie)       // critical-section exit
    | UsbAddDevice(port: Addr)         // hand-off to the USB core for a port

  /** What a read of register `a` returns when only software has changed it. */
  function Peek(m: map<Addr, bv32>, a: Addr): bv32
  {
    if a in m then m[a] else 0
  }

  /** The register file after the writes of `es`, applied in order. */
  function Replay(m: map<Addr, bv32>, es: seq<Event>): map<Addr, bv32>
    decreases es
  {
    if es == [] then m
    else Replay(if es[0].Write? then m[es[0].addr := es[0].value] else m, es[1..])
  }

  /** A value with the bits of `bits` set, as set32 writes it back. */
  function SetBits(x: bv32, bits: bv32): bv32
  {
    x | bits
  }

  /** A value with the bits of `bits` cleared, as clear32 writes it back. */
  function ClearBits(x: bv32, bits: bv32): bv32
  {
    x & !bits
  }

  /** `x` masked by `mask`. */
  function Masked(x: bv32, mask: bv32): bv32
  {
    x & mask
  }

  /** Whether a register value has any bit of `mask` set. */
  predicate AnySet(x: bv32, mask: bv32)
  {
    x & mask != 0
  }

  /** `r` is `t` with more events after it. */
  predicate Extends(r: seq<Event>, t: seq<Event>)
  {
    |t| <= |r| && r[..|t|] == t
  }

  lemma ExtendsTransitive(r: seq<Event>, s: seq<Event>, t: seq<Event>)
    requires Extends(r, s) && Extends(s, t)
    ensures Extends(r, t)
  {
    assert r[..|t|] == r[..|s|][..|t|];
  }

  /** What `r` adds to `t` is what `s` adds, then what `r` adds to `s`. */
  lemma AddedSplit(r: seq<Event>, s: seq<Event>, t: seq<Event>)
    requires Extends(r, s) && Extends(s, t)
    ensures r[|t|..] == s[|t|..] + r[|s|..]
  {
    assert r[|t|..|s|] == r[..|s|][|t|..];
    assert r[|t|..] == r[|t|..|s|] + r[|s|..];
  }

  /** A write to one register leaves what another reads unchanged. */
  lemma PeekOther(m: map<Addr, bv32>, a: Addr, v: bv32, b: Addr)
    requires a != b
    ensures Peek(m[a := v], b) == Peek(m, b)
  {
  }

  /** Replaying a concatenation is replaying its parts one after the other. */
  lemma {:induction false} ReplayAppend(m: map<Addr, bv32>, a: seq<Event>, b: seq<Event>)
    ensures Replay(m, a + b) == Replay(Replay(m, a), b)
    decreases a
  {
    if a == [] {
      assert a + b == b;
    } else {
      assert (a + b)[0] == a[0] && (a + b)[1..] == a[1..] + b;
      ReplayAppend(if a[0].Write? then m[a[0].addr := a[0].value] else m, a[1..], b);
    }
  }

  /** The last write to `a` in `es` decides its value; with none, it keeps its old value. */
  lemma {:induction false} ReplayUntouched(m: map<Addr, bv32>, es: seq<Event>, a: Addr)
    requires forall i :: 0 <= i < |es| && es[i].Write? ==> es[i].addr != a
    ensures Peek(Replay(m, es), a) == Peek(m, a)
    decreases es
  {
    if es != [] {
      var m' := if es[0].Write? then m[es[0].addr := es[0].value] else m;
      assert es[0].Write? ==> es[0].addr != a;
      forall i | 0 <= i < |es[1..]| && es[1..][i].Write?
        ensures es[1..][i].addr != a
      {
        assert es[1..][i] == es[i + 1];
      }
      ReplayUntouched(m', es[1..], a);
    }
  }

  /** The register file after one more event. */
  lemma ReplayOne(m: map<Addr, bv32>, e: Event)
    ensures Replay(m, [e]) == if e.Write? then m[e.addr := e.value] else m
  {
    assert [e][1..] == [];
  }

  /** The last write to `a` in `es` decides what a read of `a` returns. */
  lemma ReplayLastWrite(m: map<Addr, bv32>, es: seq<Event>, i: nat, a: Addr)
    requires i < |es| && es[i].Write? && es[i].addr == a
    requires forall j :: i < j < |es| && es[j].Write? ==> es[j].addr != a
    ensures Peek(Replay(m, es), a) == es[i].value
  {
    assert es == es[..i] + [es[i]] + es[i + 1..];
    ReplayAppend(m, es[..i] + [es[i]], es[i + 1..]);
    ReplayAppend(m, es[..i], [es[i]]);
    ReplayOne(Replay(m, es[..i]), es[i]);
    var rest := es[i + 1..];
    forall j | 0 <= j < |rest| && rest[j].Write?
      ensures rest[j].addr != a
    {
      assert rest[j] == es[i + 1 + j];
    }
    ReplayUntouched(Replay(m, es[..i + 1]), rest, a);
    assert es[..i] + [es[i]] == es[..i + 1];
  }

  /** The addresses `es` writes. */
  function Written(es: seq<Event>): set<Addr>
  {
    set i | 0 <= i < |es| && es[i].Write? :: es[i].addr
  }

  /** The values written to register `a` in `es`, in order. */
  function ValuesWritten(a: Addr, es: seq<Event>): seq<bv32>
  {
    if es == [] then []
    else (if es[0].Write? && es[0].addr == a then [es[0].value] else []) + ValuesWritten(a, es[1..])
  }

  lemma {:induction false} ValuesWrittenAppend(a: Addr, x: seq<Event>, y: seq<Event>)
    ensures ValuesWritten(a, x + y) == ValuesWritten(a, x) + ValuesWritten(a, y)
    decreases x
  {
    if x == [] {
      assert x + y == y;
    } else {
      assert (x + y)[0] == x[0] && (x + y)[1..] == x[1..] + y;
      ValuesWrittenAppend(a, x[1..], y);
    }
  }

  /** One more event adds its value when it writes `a`. */
  lemma ValuesWrittenSnoc(a: Addr, es: seq<Event>, e: Event)
    ensures ValuesWritten(a, es + [e]) == ValuesWritten(a, es) + if e.Write? && e.addr == a then [e.value] else []
  {
    ValuesWrittenAppend(a, es, [e]);
    assert [e][1..] == [];
  }

  /** No write to `a` in `es`, no value written to `a`. */
  lemma {:induction false} ValuesWrittenNone(a: Addr, es: seq<Event>)
    requires forall e :: e in es ==> !(e.Write? && e.addr == a)
    ensures ValuesWritten(a, es) == []
    decreases es
  {
    if es != [] {
      assert es[0] in es;
      assert forall e :: e in es[1..] ==> e in es;
      ValuesWrittenNone(a, es[1..]);
    }
  }

  /** Index of the first reply in `poll` that has any bit of `mask` set. */
  function FirstSet(poll: seq<bv32>, mask: bv32): (k: int)
    ensures -1 <= k < |poll|
    ensures k >= 0 ==> AnySet(poll[k], mask)
    ensures forall j :: 0 <= j < (if k < 0 then |poll| else k) ==> !AnySet(poll[j], mask)
  {
    if poll == [] then -1
    else if AnySet(poll[0], mask) then 0
    else
      var k := FirstSet(poll[1..], mask);
      if k < 0 then -1 else k + 1
  }

  /** A spin `while (!(read32(reg) & mask));` fed with the successive replies
      of the hardware: returns how many reads it takes, or -1 when none of the
      given replies ends it (the original would spin on). */
  method Spin(poll: seq<bv32>, mask: bv32) returns (k: int)
    ensures k == FirstSet(poll, mask)
  {
    k := 0;
    while k < |poll| && !AnySet(poll[k], mask)
      invariant 0 <= k <= |poll|
      invariant forall j :: 0 <= j < k ==> !AnySet(poll[j], mask)
    {
      k := k + 1;
    }
    if k == |poll| {
      k := -1;
    }
    FirstSetIsFirst(poll, mask, k);
  }

  lemma {:induction false} FirstSetIsFirst(poll: seq<bv32>, mask: bv32, k: int)
    requires -1 <= k < |poll|
    requires k >= 0 ==> AnySet(poll[k], mask)
    requires forall j :: 0 <= j < (if k < 0 then |poll| else k) ==> !AnySet(poll[j], mask)
    ensures FirstSet(poll, mask) == k
  {
    if poll != [] && !AnySet(poll[0], mask) {
      FirstSetIsFirst(poll[1..], mask, if k < 0 then -1 else k - 1);
    }
  }

  /** The memory-mapped register space and the CPU's interrupt-enable bit. */
  class Bus {
    var regs: map<Addr, bv32>
    var trace: seq<Event>
    var ee: bool
    ghost var boot: map<Addr, bv32>

    /** The register file is the boot state with the logged writes applied. */
    ghost predicate Valid()
      reads this
    {
      regs == Replay(boot, trace)
    }

    constructor (initial: map<Addr, bv32>, enabled: bool)
      ensures Valid() && regs == initial && trace == [] && ee == enabled
    {
      regs, trace, ee := initial, [], enabled;
      boot := initial;
    }

    /** read32 of a register only software changes. */
    function Read32(a: Addr): bv32
      reads this
    {
      Peek(regs, a)
    }

    method Write32(a: Addr, v: bv32)
      requires Valid()
      modifies this
      ensures Valid() && ee == old(ee)
      ensures regs == old(regs)[a := v]
      ensures trace == old(trace) + [Write(a, v)]
    {
      ReplayAppend(boot, trace, [Write(a, v)]);
      regs := regs[a := v];
      trace := trace + [Write(a, v)];
    }

    /** set32: read, OR in `bits`, write back. */
    method Set32(a: Addr, bits: bv32)
      requires Valid()
      modifies this
      ensures Valid() && ee == old(ee)
      ensures regs == old(regs)[a := SetBits(old(Read32(a)), bits)]
      ensures trace == old(trace) + [Write(a, SetBits(old(Read32(a)), bits))]
    {
      Write32(a, SetBits(Read32(a), bits));
    }

    /** clear32: read, AND out `bits`, write back. */
    method Clear32(a: Addr, bits: bv32)
      requires Valid()
      modifies this
      ensures Valid() && ee == old(ee)
      ensures regs == old(regs)[a := ClearBits(old(Read32(a)), bits)]
      ensures trace == old(trace) + [Write(a, ClearBits(old(Read32(a)), bits))]
    {
      Write32(a, ClearBits(Read32(a), bits));
    }

    /** _CPU_ISR_Disable: save the enable state in a cookie and disable. */
    method DisableIsr() returns (c: Cookie)
      requires Valid()
      modifies this
      ensures Valid() && regs == old(regs) && !ee
      ensures c == Cookie(old(ee))
      ensures trace == old(trace) + [IsrDisable(c)]
    {
      c := Cookie(ee);
      ReplayAppend(boot, trace, [IsrDisable(c)]);
      ee := false;
      trace := trace + [IsrDisable(c)];
    }

    /** _CPU_ISR_Restore: bring back the enable state a cookie captured. */
    method RestoreIsr(c: Cookie)
      requires Valid()
      modifies this
      ensures Valid() && regs == old(regs) && ee == c.wasEnabled
      ensures trace == old(trace) + [IsrRestore(c)]
    {
      ReplayAppend(boot, trace, [IsrRestore(c)]);
      ee := c.wasEnabled;
      trace := trace + [IsrRestore(c)];
    }

    /** _CPU_ISR_Enable. */
    method EnableIsr()
      requires Valid()
      modifies this
      ensures Valid() && regs == old(regs) && ee
      ensures trace == old(trace) + [IsrEnable]
    {
      ReplayAppend(boot, trace, [IsrEnable]);
      ee := true;
      trace := trace + [IsrEnable];
    }

    /** A call into code outside the driver that the trace records. */
    method Emit(e: Event)
      requires Valid() && !e.Write?
      modifies this
      ensures Valid() && regs == old(regs) && ee == old(ee)
      ensures trace == old(trace) + [e]
    {
      ReplayAppend(boot, trace, [e]);
      trace := trace + [e];
    }
  }
}
