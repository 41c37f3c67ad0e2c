/** The two-level interrupt controller of the Wii as irq.c drives it: the
    Flipper processor interface (BW_PI_IRQFLAG / BW_PI_IRQMASK) cascades the
    Hollywood controller (HW_PPCIRQFLAG / HW_PPCIRQMASK). The register
    addresses and bit positions live in hollywood.h, which is not part of this
    model: they are a `Layout` parameter with the shape `WellFormed` demands.

    Every specification function here takes the trace `t` so far and returns
    it with the driver's events appended. */
module Irq {
  import opened Mmio

  /** The Hollywood interrupt sources the handler knows, in the order it
      examines them. */
  datatype Source = Timer | Nand | Gpio1b | Gpio1 | Reset | Ipc | Aes | Sdhc | Ohci0 | Ohci1

  const ORDER: seq<Source> := [Timer, Nand, Gpio1b, Gpio1, Reset, Ipc, Aes, Sdhc, Ohci0, Ohci1]

  /** Register addresses and flag bits from hollywood.h. */
  datatype Layout = Layout(
    piFlag: Addr, piMask: Addr,            // BW_PI_IRQFLAG, BW_PI_IRQMASK
    hwFlag: Addr, hwMask: Addr,            // HW_PPCIRQFLAG, HW_PPCIRQMASK
    nandCmd: Addr, gpio1bIntFlag: Addr, gpio1IntFlag: Addr,
    piReset: bv32, piHw: bv32,             // 1<<BW_PI_IRQ_RESET, 1<<BW_PI_IRQ_HW
    timer: bv32, nand: bv32, gpio1b: bv32, gpio1: bv32, reset: bv32,  // IRQF_*
    ipc: bv32, aes: bv32, sdhc: bv32, ohci0: bv32, ohci1: bv32)
  {
    /** IRQF_ of a source. */
    function irqf(s: Source): bv32
    {
      match s
      case Timer => timer   case Nand => nand     case Gpio1b => gpio1b
      case Gpio1 => gpio1   case Reset => reset   case Ipc => ipc
      case Aes => aes       case Sdhc => sdhc     case Ohci0 => ohci0
      case Ohci1 => ohci1
    }
  }

  /** The union of the bits of the `k`-th source of ORDER and those after it. */
  function AllFrom(l: Layout, k: nat): bv32
    requires k <= |ORDER|
    decreases |ORDER| - k
  {
    if k == |ORDER| then 0 else SetBits(AllFrom(l, k + 1), l.irqf(ORDER[k]))
  }

  /** IRQF_ALL: the union of the known sources' bits. */
  function All(l: Layout): bv32
  {
    AllFrom(l, 0)
  }

  /** No two of the addresses coincide. */
  predicate Distinct(rs: seq<Addr>)
  {
    forall i, j :: 0 <= i < j < |rs| ==> rs[i] != rs[j]
  }

  /** The registers the driver writes; HW_PPCIRQMASK+0x20 is the one
      irq_initialize clears without naming it. */
  function Registers(l: Layout): seq<Addr>
  {
    [l.piFlag, l.piMask, l.hwFlag, l.hwMask, l.hwMask + 0x20, l.nandCmd, l.gpio1bIntFlag, l.gpio1IntFlag]
  }

  /** What the model relies on: distinct registers, a nonzero bit for every
      source, no two sources sharing a bit, and two distinct processor
      interface bits. */
  predicate WellFormed(l: Layout)
  {
    && Distinct(Registers(l))
    && l.piReset != 0 && l.piHw != 0 && Masked(l.piReset, l.piHw) == 0
    && (forall s :: l.irqf(s) != 0)
    && (forall s, s' :: s != s' ==> Masked(l.irqf(s), l.irqf(s')) == 0)
  }

  // ---- masks -------------------------------------------------------------

  /** `1 << irq`, the mask of interrupt line `irq`. */
  function Bit(irq: bv32): bv32
    requires irq < 32
  {
    1 << irq
  }

  lemma BitNonzero(irq: bv32)
    requires irq < 32
    ensures Bit(irq) != 0
  {
  }

  /** A mask with line `irq` enabled, as irq_bw_enable and irq_hw_enable leave it. */
  function WithBit(mask: bv32, irq: bv32): bv32
    requires irq < 32
  {
    SetBits(mask, Bit(irq))
  }

  /** A mask with line `irq` disabled, as irq_bw_disable and irq_hw_disable leave it. */
  function WithoutBit(mask: bv32, irq: bv32): bv32
    requires irq < 32
  {
    ClearBits(mask, Bit(irq))
  }

  lemma OrSetsBits(mask: bv32, b: bv32)
    ensures (mask | b) & b == b && (mask | b) & !b == mask & !b
  {
  }

  lemma AndNotClearsBits(mask: bv32, b: bv32)
    ensures (mask & !b) & b == 0 && (mask & !b) & !b == mask & !b
  {
  }

  lemma OrThenAndNotCancel(mask: bv32, b: bv32)
    requires mask & b == 0
    ensures (mask | b) & !b == mask
  {
  }

  lemma AndNotThenOrCancel(mask: bv32, b: bv32)
    requires mask & b == b
    ensures (mask & !b) | b == mask
  {
  }

  /** Enabling a line sets its bit and no other. */
  lemma EnableSetsOneBit(mask: bv32, irq: bv32)
    requires irq < 32
    ensures WithBit(mask, irq) & Bit(irq) != 0
    ensures WithBit(mask, irq) & !Bit(irq) == mask & !Bit(irq)
  {
    BitNonzero(irq);
    OrSetsBits(mask, Bit(irq));
  }

  /** Disabling a line clears its bit and no other. */
  lemma DisableClearsOneBit(mask: bv32, irq: bv32)
    requires irq < 32
    ensures WithoutBit(mask, irq) & Bit(irq) == 0
    ensures WithoutBit(mask, irq) & !Bit(irq) == mask & !Bit(irq)
  {
    AndNotClearsBits(mask, Bit(irq));
  }

  /** Disabling undoes enabling a line that was off. */
  lemma DisableUndoesEnable(mask: bv32, irq: bv32)
    requires irq < 32 && mask & Bit(irq) == 0
    ensures WithoutBit(WithBit(mask, irq), irq) == mask
  {
    OrThenAndNotCancel(mask, Bit(irq));
  }

  /** Enabling undoes disabling a line that was on. */
  lemma EnableUndoesDisable(mask: bv32, irq: bv32)
    requires irq < 32 && mask & Bit(irq) == Bit(irq)
    ensures WithBit(WithoutBit(mask, irq), irq) == mask
  {
    AndNotThenOrCancel(mask, Bit(irq));
  }

  /** irq_bw_enable. */
  method BwEnable(l: Layout, hw: Bus, irq: bv32)
    requires hw.Valid() && irq < 32
    modifies hw
    ensures hw.Valid() && hw.ee == old(hw.ee)
    ensures hw.regs == old(hw.regs)[l.piMask := WithBit(old(hw.Read32(l.piMask)), irq)]
    ensures hw.trace == old(hw.trace) + [Write(l.piMask, WithBit(old(hw.Read32(l.piMask)), irq))]
  {
    hw.Set32(l.piMask, Bit(irq));
  }

  /** irq_bw_disable. */
  method BwDisable(l: Layout, hw: Bus, irq: bv32)
    requires hw.Valid() && irq < 32
    modifies hw
    ensures hw.Valid() && hw.ee == old(hw.ee)
    ensures hw.regs == old(hw.regs)[l.piMask := WithoutBit(old(hw.Read32(l.piMask)), irq)]
    ensures hw.trace == old(hw.trace) + [Write(l.piMask, WithoutBit(old(hw.Read32(l.piMask)), irq))]
  {
    hw.Clear32(l.piMask, Bit(irq));
  }

  /** irq_hw_enable. */
  method HwEnable(l: Layout, hw: Bus, irq: bv32)
    requires hw.Valid() && irq < 32
    modifies hw
    ensures hw.Valid() && hw.ee == old(hw.ee)
    ensures hw.regs == old(hw.regs)[l.hwMask := WithBit(old(hw.Read32(l.hwMask)), irq)]
    ensures hw.trace == old(hw.trace) + [Write(l.hwMask, WithBit(old(hw.Read32(l.hwMask)), irq))]
  {
    hw.Set32(l.hwMask, Bit(irq));
  }

  /** irq_hw_disable. */
  method HwDisable(l: Layout, hw: Bus, irq: bv32)
    requires hw.Valid() && irq < 32
    modifies hw
    ensures hw.Valid() && hw.ee == old(hw.ee)
    ensures hw.regs == old(hw.regs)[l.hwMask := WithoutBit(old(hw.Read32(l.hwMask)), irq)]
    ensures hw.trace == old(hw.trace) + [Write(l.hwMask, WithoutBit(old(hw.Read32(l.hwMask)), irq))]
  {
    hw.Clear32(l.hwMask, Bit(irq));
  }

  // ---- critical sections --------------------------------------------------

  /** irq_kill: disable external interrupts and hand back the cookie. */
  method Kill(hw: Bus) returns (cookie: Cookie)
    requires hw.Valid()
    modifies hw
    ensures hw.Valid() && hw.regs == old(hw.regs) && !hw.ee
    ensures cookie.wasEnabled == old(hw.ee)
    ensures hw.trace == old(hw.trace) + [IsrDisable(cookie)]
  {
    cookie := hw.DisableIsr();
  }

  /** irq_restore: bring back the state a cookie recorded. */
  method Restore(hw: Bus, cookie: Cookie)
    requires hw.Valid()
    modifies hw
    ensures hw.Valid() && hw.regs == old(hw.regs) && hw.ee == cookie.wasEnabled
    ensures hw.trace == old(hw.trace) + [IsrRestore(cookie)]
  {
    hw.RestoreIsr(cookie);
  }

  // ---- initialisation and shutdown ----------------------------------------

  /** The trace `t` followed by what irq_initialize does. */
  function InitializeLog(l: Layout, t: seq<Event>): seq<Event>
  {
    t + [Write(l.piMask, 0)] + [Write(l.piFlag, 0xFFFF_FFFF)] + [Write(l.hwMask, 0)]
    + [Write(l.hwFlag, 0xFFFF_FFFF)] + [Write(l.hwMask + 0x20, 0)] + [IsrEnable]
  }

  /** irq_initialize: mask everything, clear every pending flag, enable
      external interrupts. */
  method Initialize(l: Layout, hw: Bus)
    requires hw.Valid()
    modifies hw
    ensures hw.Valid() && hw.ee
    ensures hw.trace == InitializeLog(l, old(hw.trace))
  {
    hw.Write32(l.piMask, 0);
    hw.Write32(l.piFlag, 0xFFFF_FFFF);
    hw.Write32(l.hwMask, 0);
    hw.Write32(l.hwFlag, 0xFFFF_FFFF);
    hw.Write32(l.hwMask + 0x20, 0);
    hw.EnableIsr();
  }

  /** After irq_initialize both masks read 0 and both flag registers were
      last written all-ones, whatever the registers held before. */
  lemma InitializeMasksAll(l: Layout, m: map<Addr, bv32>, t: seq<Event>)
    requires WellFormed(l)
    ensures Peek(Replay(m, InitializeLog(l, t)), l.piMask) == 0
    ensures Peek(Replay(m, InitializeLog(l, t)), l.hwMask) == 0
    ensures Peek(Replay(m, InitializeLog(l, t)), l.piFlag) == 0xFFFF_FFFF
    ensures Peek(Replay(m, InitializeLog(l, t)), l.hwFlag) == 0xFFFF_FFFF
  {
    var rs := Registers(l);
    assert rs[0] != rs[1] && rs[0] != rs[2] && rs[0] != rs[3] && rs[0] != rs[4];
    assert rs[1] != rs[2] && rs[1] != rs[3] && rs[1] != rs[4];
    assert rs[2] != rs[3] && rs[2] != rs[4] && rs[3] != rs[4];
    var es := InitializeLog(l, t);
    var n := |t|;
    assert es[n] == Write(l.piMask, 0) && es[n + 1] == Write(l.piFlag, 0xFFFF_FFFF);
    assert es[n + 2] == Write(l.hwMask, 0) && es[n + 3] == Write(l.hwFlag, 0xFFFF_FFFF);
    assert es[n + 4] == Write(l.hwMask + 0x20, 0) && es[n + 5] == IsrEnable && |es| == n + 6;
    ReplayLastWrite(m, es, n, l.piMask);
    ReplayLastWrite(m, es, n + 1, l.piFlag);
    ReplayLastWrite(m, es, n + 2, l.hwMask);
    ReplayLastWrite(m, es, n + 3, l.hwFlag);
  }

  /** The trace `t` followed by what irq_shutdown does, `ee` being the
      interrupt enable state it finds. */
  function ShutdownLog(l: Layout, ee: bool, t: seq<Event>): seq<Event>
  {
    t + [Write(l.hwMask, 0)] + [Write(l.hwFlag, 0xFFFF_FFFF)] + [IsrDisable(Cookie(ee))]
  }

  /** irq_shutdown: mask and clear the Hollywood controller, then kill
      external interrupts. */
  method Shutdown(l: Layout, hw: Bus)
    requires hw.Valid()
    modifies hw
    ensures hw.Valid() && !hw.ee
    ensures hw.trace == ShutdownLog(l, old(hw.ee), old(hw.trace))
  {
    hw.Write32(l.hwMask, 0);
    hw.Write32(l.hwFlag, 0xFFFF_FFFF);
    var _ := Kill(hw);
  }

  // ---- the handler --------------------------------------------------------

  /** How a call of the handler ends: it returns, or it reaches one of the
      endless loops of the TIMER and OHCI0 branches. */
  datatype Ending = Returned | Halted(source: Source)

  /** Sources whose branch never returns. */
  predicate Terminal(s: Source)
  {
    s == Timer || s == Ohci0
  }

  /** The writes that acknowledge one second-level source. */
  function AckLog(l: Layout, s: Source, t: seq<Event>): seq<Event>
  {
    match s
    case Nand => t + [Write(l.nandCmd, 0x7fff_ffff)] + [Write(l.hwFlag, l.irqf(Nand))]
    case Gpio1b => t + [Write(l.gpio1bIntFlag, 0xFF_FFFF)] + [Write(l.hwFlag, l.irqf(Gpio1b))]
    case Gpio1 => t + [Write(l.gpio1IntFlag, 0xFF_FFFF)] + [Write(l.hwFlag, l.irqf(Gpio1))]
    case _ => t + [Write(l.hwFlag, l.irqf(s))]
  }

  /** The test of the `k`-th source: acknowledge it if it is pending. */
  function StepLog(l: Layout, pending: bv32, k: nat, t: seq<Event>): seq<Event>
    requires k < |ORDER|
  {
    if AnySet(pending, l.irqf(ORDER[k])) then AckLog(l, ORDER[k], t) else t
  }

  /** The pending bits no known source owns. */
  function Unknown(l: Layout, pending: bv32): bv32
  {
    ClearBits(pending, All(l))
  }

  /** The final write that clears, at once, every pending bit of an unknown source. */
  function UnknownLog(l: Layout, pending: bv32, t: seq<Event>): seq<Event>
  {
    if Unknown(l, pending) != 0 then t + [Write(l.hwFlag, Unknown(l, pending))] else t
  }

  /** Whether the `k`-th source is pending and its branch never returns. */
  predicate HaltsAt(l: Layout, pending: bv32, k: nat)
    requires k < |ORDER|
  {
    AnySet(pending, l.irqf(ORDER[k])) && Terminal(ORDER[k])
  }

  /** The second-level tests from the `k`-th source of ORDER on, for the
      pending and enabled bits `pending`. */
  function Dispatch(l: Layout, pending: bv32, k: nat, t: seq<Event>): (r: seq<Event>)
    requires k <= |ORDER|
    ensures Extends(r, t)
    decreases |ORDER| - k
  {
    if k == |ORDER| then UnknownLog(l, pending, t)
    else if HaltsAt(l, pending, k) then AckLog(l, ORDER[k], t)
    else
      var t' := StepLog(l, pending, k, t);
      var r := Dispatch(l, pending, k + 1, t');
      ExtendsTransitive(r, t', t);
      r
  }

  /** A source that does not halt the handler: its test, then the rest. */
  lemma DispatchStep(l: Layout, pending: bv32, k: nat, t: seq<Event>)
    requires k < |ORDER| && !HaltsAt(l, pending, k)
    ensures Dispatch(l, pending, k, t) == Dispatch(l, pending, k + 1, StepLog(l, pending, k, t))
    ensures DispatchEnding(l, pending, k) == DispatchEnding(l, pending, k + 1)
  {
  }

  /** How the second-level tests from the `k`-th source on end. */
  function DispatchEnding(l: Layout, pending: bv32, k: nat): Ending
    requires k <= |ORDER|
    decreases |ORDER| - k
  {
    if k == |ORDER| then Returned
    else if HaltsAt(l, pending, k) then Halted(ORDER[k])
    else DispatchEnding(l, pending, k + 1)
  }

  /** The top level of irq_handler: acknowledge a reset-button interrupt. */
  function TopLog(l: Layout, flags: bv32, t: seq<Event>): seq<Event>
  {
    if AnySet(flags, l.piReset) then t + [Write(l.piFlag, l.piReset)] else t
  }

  /** irq_handler, from the two mask registers' contents and the two flag
      registers' replies. */
  function Handle(l: Layout, piMask: bv32, piFlags: bv32, hwMask: bv32, hwFlags: bv32, t: seq<Event>): seq<Event>
  {
    var flags := Masked(piFlags, piMask);
    if AnySet(flags, l.piHw) then Dispatch(l, Masked(hwFlags, hwMask), 0, TopLog(l, flags, t))
    else TopLog(l, flags, t)
  }

  /** How irq_handler ends. */
  function HandleEnding(l: Layout, piMask: bv32, piFlags: bv32, hwMask: bv32, hwFlags: bv32): Ending
  {
    if AnySet(Masked(piFlags, piMask), l.piHw) then DispatchEnding(l, Masked(hwFlags, hwMask), 0)
    else Returned
  }

  /** The branch of irq_handler for the `k`-th source, one whose branch
      returns: if it is pending, silence it where needed and clear its flag. */
  method AckIfPending(l: Layout, hw: Bus, pending: bv32, k: nat)
    requires hw.Valid() && k < |ORDER| && !Terminal(ORDER[k])
    modifies hw
    ensures hw.Valid() && hw.ee == old(hw.ee)
    ensures hw.trace == StepLog(l, pending, k, old(hw.trace))
  {
    var s := ORDER[k];
    if AnySet(pending, l.irqf(s)) {
      if s == Nand {
        hw.Write32(l.nandCmd, 0x7fff_ffff);
      } else if s == Gpio1b {
        hw.Write32(l.gpio1bIntFlag, 0xFF_FFFF);
      } else if s == Gpio1 {
        hw.Write32(l.gpio1IntFlag, 0xFF_FFFF);
      }
      hw.Write32(l.hwFlag, l.irqf(s));
    }
  }

  /** The tail of irq_handler: clear, in one write, the pending bits of
      sources it does not know. */
  method AckUnknown(l: Layout, hw: Bus, pending: bv32)
    requires hw.Valid()
    modifies hw
    ensures hw.Valid() && hw.ee == old(hw.ee)
    ensures hw.trace == UnknownLog(l, pending, old(hw.trace))
  {
    var unknown := ClearBits(pending, All(l));
    if unknown != 0 {
      hw.Write32(l.hwFlag, unknown);
    }
  }

  /** The NAND, GPIO1B and GPIO1 branches of irq_handler, which silence
      their device before clearing its flag. */
  method AckSilenced(l: Layout, hw: Bus, pending: bv32)
    requires hw.Valid()
    modifies hw
    ensures hw.Valid() && hw.ee == old(hw.ee)
    ensures Dispatch(l, pending, 1, old(hw.trace)) == Dispatch(l, pending, 4, hw.trace)
    ensures DispatchEnding(l, pending, 1) == DispatchEnding(l, pending, 4)
  {
    DispatchStep(l, pending, 1, hw.trace);
    AckIfPending(l, hw, pending, 1);  // NAND
    DispatchStep(l, pending, 2, hw.trace);
    AckIfPending(l, hw, pending, 2);  // GPIO1B
    DispatchStep(l, pending, 3, hw.trace);
    AckIfPending(l, hw, pending, 3);  // GPIO1
  }

  /** The RESET, IPC, AES and SDHC branches of irq_handler, which only clear
      the flag. */
  method AckPlain(l: Layout, hw: Bus, pending: bv32)
    requires hw.Valid()
    modifies hw
    ensures hw.Valid() && hw.ee == old(hw.ee)
    ensures Dispatch(l, pending, 4, old(hw.trace)) == Dispatch(l, pending, 8, hw.trace)
    ensures DispatchEnding(l, pending, 4) == DispatchEnding(l, pending, 8)
  {
    DispatchStep(l, pending, 4, hw.trace);
    AckIfPending(l, hw, pending, 4);  // RESET
    DispatchStep(l, pending, 5, hw.trace);
    AckIfPending(l, hw, pending, 5);  // IPC
    DispatchStep(l, pending, 6, hw.trace);
    AckIfPending(l, hw, pending, 6);  // AES
    DispatchStep(l, pending, 7, hw.trace);
    AckIfPending(l, hw, pending, 7);  // SDHC
  }

  /** The second level of irq_handler, once the cascade bit is seen:
      `pending` is HW_PPCIRQFLAG masked by HW_PPCIRQMASK. */
  method HandleHollywood(l: Layout, hw: Bus, pending: bv32) returns (ending: Ending)
    requires hw.Valid()
    modifies hw
    ensures hw.Valid() && hw.ee == old(hw.ee)
    ensures hw.trace == Dispatch(l, pending, 0, old(hw.trace))
    ensures ending == DispatchEnding(l, pending, 0)
  {
    if AnySet(pending, l.irqf(Timer)) {
      hw.Write32(l.hwFlag, l.irqf(Timer));
      return Halted(Timer);
    }
    DispatchStep(l, pending, 0, hw.trace);
    AckSilenced(l, hw, pending);
    AckPlain(l, hw, pending);
    if AnySet(pending, l.irqf(Ohci0)) {
      hw.Write32(l.hwFlag, l.irqf(Ohci0));
      return Halted(Ohci0);
    }
    DispatchStep(l, pending, 8, hw.trace);
    DispatchStep(l, pending, 9, hw.trace);
    AckIfPending(l, hw, pending, 9);  // OHCI1
    AckUnknown(l, hw, pending);
    ending := Returned;
  }

  /** irq_handler. The flag registers are set by the hardware, so what they
      read is given; the masks are read from the register file. */
  method Handler(l: Layout, hw: Bus, piFlags: bv32, hwFlags: bv32) returns (ending: Ending)
    requires hw.Valid() && l.piFlag != l.hwMask
    modifies hw
    ensures hw.Valid() && hw.ee == old(hw.ee)
    ensures hw.trace == Handle(l, old(hw.Read32(l.piMask)), piFlags, old(hw.Read32(l.hwMask)), hwFlags, old(hw.trace))
    ensures ending == HandleEnding(l, old(hw.Read32(l.piMask)), piFlags, old(hw.Read32(l.hwMask)), hwFlags)
  {
    var enabled := hw.Read32(l.piMask);
    var flags := Masked(piFlags, enabled);
    ending := Returned;
    if AnySet(flags, l.piReset) {
      hw.Write32(l.piFlag, l.piReset);
      PeekOther(old(hw.regs), l.piFlag, l.piReset, l.hwMask);
    }
    if AnySet(flags, l.piHw) {
      var hwEnabled := hw.Read32(l.hwMask);
      var pending := Masked(hwFlags, hwEnabled);
      ending := HandleHollywood(l, hw, pending);
    }
  }
}
