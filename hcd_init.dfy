/** Bring-up of the OHCI0 host controller (hcdi_init in usb/host/ohci.c):
    a software reset polled against a budget, then the list heads, the HCCA,
    the frame timing (sections 7.3.1 and 7.3.4 of the Open Host Controller
    Interface Specification, Release 1.0a), the operational state and the
    interrupt enables, all inside one critical section. */
module HcdInit {
  import opened Mmio
  import opened OhciRegs
  import opened HcdPorts
  import Irq
  import opened Descriptors

  const INT_STATUS: Addr := Ohci0(InterruptStatus)
  const INT_ENABLE: Addr := Ohci0(InterruptEnable)
  const INT_DISABLE: Addr := Ohci0(InterruptDisable)
  const COMMAND_STATUS: Addr := Ohci0(CommandStatus)
  const CONTROL: Addr := Ohci0(Control)
  const CTRL_HEAD_ED: Addr := Ohci0(ControlHeadEd)
  const BULK_HEAD_ED: Addr := Ohci0(BulkHeadEd)
  const HCCA: Addr := Ohci0(Hcca)
  const FM_INTERVAL: Addr := Ohci0(FmInterval)
  const PERIODIC_START: Addr := Ohci0(PeriodicStart)
  const RH_STATUS: Addr := Ohci0(RhStatus)

  /** The bits set in the EHCI control register to route both OHCI
      controllers' interrupts. */
  const EHCI_CTL_OHCI_INTE: bv32 := EHCI_CTL_OH0INTE | EHCI_CTL_OH1INTE | 0xe0000

  /** How many reads of HcCommandStatus the reset may take. */
  const RESET_BUDGET: nat := 30

  /** The nominal frame interval: 12000 bit times, minus one. */
  const FI: U32 := 0x2edf

  /** The FI field (bits 0-13) of an HcFmInterval value, as a number. */
  function FrameInterval(reg: bv32): (fi: U32)
    ensures fi < 0x4000
  {
    (reg & 0x3fff) as int
  }

  /** FSMP: the largest data packet that fits a frame of `fi` bit times,
      computed as the driver computes it, in 32-bit unsigned arithmetic
      (the subtraction and the product wrap modulo 2^32) and masked to 15
      bits. */
  function Fsmp(fi: U32): U32
  {
    ((6 * ((fi - 210) % 0x1_0000_0000)) % 0x1_0000_0000 / 7) % 0x8000
  }

  /** The saved interval, `fi | FSMP(fi) << 16`. The two parts share no
      bit, so the OR is a sum. */
  function SavedInterval(fi: U32): U32
    requires fi < 0x4000
  {
    fi + Fsmp(fi) * 0x1_0000
  }

  /** `fit ^ FIT`: FIT exactly when the register read did not have it. */
  function ToggledFit(reg: bv32): bv32
  {
    (reg & FIT) ^ FIT
  }

  /** The HcFmInterval value written after the reset, from the register as
      read before the reset and as read after it. */
  function FmIntervalWord(saved: bv32, afterReset: bv32): bv32
  {
    Word(SavedInterval(FrameInterval(saved))) | ToggledFit(afterReset)
  }

  /** HcPeriodicStart from the FI field `fi`: `((9 * fi) / 10) & 0x3fff`
      in 32-bit unsigned arithmetic. */
  function PeriodicStartOf(fi: U32): U32
  {
    ((9 * fi) % 0x1_0000_0000 / 10) % 0x4000
  }

  /** The saved interval holds FI in bits 0-13, zero in bits 14-15, FSMP in
      bits 16-30 and leaves FIT clear. */
  lemma SavedIntervalFields(fi: U32)
    requires fi < 0x4000
    ensures SavedInterval(fi) % 0x4000 == fi
    ensures SavedInterval(fi) % 0x1_0000 < 0x4000
    ensures SavedInterval(fi) / 0x1_0000 == Fsmp(fi)
    ensures SavedInterval(fi) < 0x8000_0000
  {
    FieldsSplit(fi, Fsmp(fi));
  }

  /** A value below 2^14 plus one below 2^15 shifted up by 16 keeps the two
      apart. */
  lemma FieldsSplit(lo: nat, hi: nat)
    requires lo < 0x4000 && hi < 0x8000
    ensures (lo + hi * 0x1_0000) % 0x4000 == lo
    ensures (lo + hi * 0x1_0000) % 0x1_0000 == lo
    ensures (lo + hi * 0x1_0000) / 0x1_0000 == hi
    ensures lo + hi * 0x1_0000 < 0x8000_0000
  {
  }

  /** The written FIT bit is the opposite of the one read after the reset. */
  lemma FitIsToggled(afterReset: bv32)
    ensures AnySet(ToggledFit(afterReset), FIT) <==> !AnySet(afterReset, FIT)
    ensures Masked(ToggledFit(afterReset), !FIT) == 0
  {
  }

  /** For a frame interval of at least 210 bit times nothing wraps and FSMP
      is the floor of 6 * (fi - 210) / 7. */
  lemma FsmpIsSixSevenths(fi: U32)
    requires 210 <= fi < 0x4000
    ensures Fsmp(fi) == 6 * (fi - 210) / 7
  {
  }

  /** Below 210 bit times the subtraction wraps and FSMP is no longer six
      sevenths of anything sensible: for an FI of 0 it is 0x4870. */
  lemma FsmpWrapsBelow210()
    ensures Fsmp(0) == 0x4870
  {
    assert (0 - 210) % 0x1_0000_0000 == 0xFFFF_FF2E;
    assert (6 * 0xFFFF_FF2E) % 0x1_0000_0000 == 0xFFFF_FB14;
    assert 0xFFFF_FB14 / 7 == 0x2492_4870;
  }

  /** HcPeriodicStart is the floor of 90% of the FI field. */
  lemma PeriodicStartIsNinetyPercent(fi: U32)
    requires fi < 0x4000
    ensures PeriodicStartOf(fi) == 9 * fi / 10
    ensures 10 * PeriodicStartOf(fi) <= 9 * fi < 10 * PeriodicStartOf(fi) + 10
  {
  }

  /** With the nominal interval the controller gets FSMP 0x2778, HcFmInterval
      0xA7782EDF after a reset that left FIT clear and 0x27782EDF after one
      that left it set, and HcPeriodicStart 0x2A2F. */
  lemma NominalTiming()
    ensures Fsmp(FI) == 0x2778
    ensures FmIntervalWord(0x2edf, 0x2edf) == 0xA778_2EDF
    ensures FmIntervalWord(0x2edf, 0x8000_2edf) == 0x2778_2EDF
    ensures PeriodicStartOf(FI) == 0x2A2F
  {
    assert FrameInterval(0x2edf) == FrameInterval(0x8000_2edf) == FI;
    assert SavedInterval(FI) == 0x2778_2EDF;
    assert Word(0x2778_2EDF) == 0x2778_2EDF;
  }

  // ---- the reset ----------------------------------------------------------

  /** Some read within the budget shows HCR cleared by the controller. */
  predicate ResetCompletes(poll: seq<bv32>)
    requires |poll| >= RESET_BUDGET
  {
    exists k :: 0 <= k < RESET_BUDGET && !AnySet(poll[k], HCR)
  }

  /** The `while ((read32(...) & HCR) != 0)` loop with its `ts` countdown,
      fed with the successive reads of HcCommandStatus. */
  method WaitForReset(poll: seq<bv32>) returns (ok: bool)
    requires |poll| >= RESET_BUDGET
    ensures ok == ResetCompletes(poll)
  {
    var ts := RESET_BUDGET;
    var k := 0;
    while AnySet(poll[k], HCR)
      invariant 0 <= k < RESET_BUDGET && ts == RESET_BUDGET - k
      invariant forall j :: 0 <= j < k ==> AnySet(poll[j], HCR)
      decreases ts
    {
      ts := ts - 1;
      if ts == 0 {
        return false;
      }
      k := k + 1;
    }
    ok := true;
  }

  /** The trace `t` followed by the steps before the reset completes: mask
      the controller's interrupts, route both controllers' interrupts, and
      request the reset. */
  function ResetLog(intDisable: bv32, ehciCtl: bv32, t: seq<Event>): seq<Event>
  {
    t + [Write(INT_DISABLE, SetBits(intDisable, INTR_MIE))] + [Write(EHCI_CTL, SetBits(ehciCtl, EHCI_CTL_OHCI_INTE))]
    + [Write(COMMAND_STATUS, HCR)]
  }

  /** The first part of hcdi_init: everything up to the end of the reset
      wait. Returns the saved frame interval with its FSMP. */
  method RequestReset(hw: Bus, poll: seq<bv32>) returns (fmint: bv32, ok: bool)
    requires hw.Valid() && |poll| >= RESET_BUDGET
    modifies hw
    ensures hw.Valid() && hw.ee == old(hw.ee)
    ensures hw.trace == ResetLog(old(hw.Read32(INT_DISABLE)), old(hw.Read32(EHCI_CTL)), old(hw.trace))
    ensures fmint == Word(SavedInterval(FrameInterval(old(hw.Read32(FM_INTERVAL)))))
    ensures ok == ResetCompletes(poll)
  {
    hw.Set32(INT_DISABLE, INTR_MIE);
    PeekOther(old(hw.regs), INT_DISABLE, SetBits(old(hw.Read32(INT_DISABLE)), INTR_MIE), FM_INTERVAL);
    PeekOther(old(hw.regs), INT_DISABLE, SetBits(old(hw.Read32(INT_DISABLE)), INTR_MIE), EHCI_CTL);
    var fi := FrameInterval(hw.Read32(FM_INTERVAL));
    fmint := Word(SavedInterval(fi));
    hw.Set32(EHCI_CTL, EHCI_CTL_OHCI_INTE);
    hw.Write32(COMMAND_STATUS, HCR);
    ok := WaitForReset(poll);
  }

  // ---- programming the controller -----------------------------------------

  /** The trace `t` followed by the register set-up after the reset, from the
      saved interval `fmint`, the HCCA's address and HcFmInterval as the
      reset left it. */
  function ProgramLog(fmint: bv32, hcca: bv32, afterReset: bv32, t: seq<Event>): seq<Event>
  {
    t + [Write(CTRL_HEAD_ED, 0)] + [Write(BULK_HEAD_ED, 0)] + [Write(HCCA, hcca)]
    + [Write(FM_INTERVAL, fmint | ToggledFit(afterReset))] + [Write(PERIODIC_START, Word(PeriodicStartOf(FrameInterval(afterReset))))]
    + [Write(CONTROL, CONTROL_INIT | USB_OPER)] + [Write(RH_STATUS, RH_HS_LPSC)]
    + [Write(INT_STATUS, 0xFFFF_FFFF)] + [Write(INT_ENABLE, INTR_INIT)]
  }

  /** The register set-up of hcdi_init between irq_kill and the port scan.
      HcFmInterval, read twice there, is changed by the reset, so its value
      is given. */
  method Program(hw: Bus, fmint: bv32, hcca: bv32, afterReset: bv32)
    requires hw.Valid()
    modifies hw
    ensures hw.Valid() && hw.ee == old(hw.ee)
    ensures hw.trace == ProgramLog(fmint, hcca, afterReset, old(hw.trace))
  {
    hw.Write32(CTRL_HEAD_ED, 0);
    hw.Write32(BULK_HEAD_ED, 0);
    hw.Write32(HCCA, hcca);
    var fmInterval := FrameInterval(afterReset);
    hw.Write32(FM_INTERVAL, fmint | ToggledFit(afterReset));
    hw.Write32(PERIODIC_START, Word(PeriodicStartOf(fmInterval)));
    hw.Write32(CONTROL, CONTROL_INIT | USB_OPER);
    hw.Write32(RH_STATUS, RH_HS_LPSC);
    hw.Write32(INT_STATUS, 0xFFFF_FFFF);
    hw.Write32(INT_ENABLE, INTR_INIT);
  }

  // ---- the whole bring-up -------------------------------------------------

  /** What the hardware answers during hcdi_init: the reads of the reset
      poll, HcFmInterval after the reset, and the two ports' replies. */
  datatype InitReplies = InitReplies(resetPoll: seq<bv32>, afterReset: bv32, port1: PortReplies, port2: PortReplies)

  /** How hcdi_init ends: the reset did not complete within the budget, a
      port scan spins forever, or it returns with the controller running. */
  datatype InitOutcome = ResetTimeout | PortStuck | Running

  function InitOutcomeOf(rp: InitReplies): InitOutcome
    requires |rp.resetPoll| >= RESET_BUDGET
  {
    if !ResetCompletes(rp.resetPoll) then ResetTimeout
    else if ConfigureStuck(true, rp.port1, rp.port2) then PortStuck
    else Running
  }

  /** The register state hcdi_init starts from. */
  datatype Entry = Entry(fmInterval: bv32, intDisable: bv32, ehciCtl: bv32, ee: bool)

  /** The trace `t` followed by what hcdi_init does. */
  function InitLog(e: Entry, hcca: bv32, rp: InitReplies, t: seq<Event>): seq<Event>
    requires |rp.resetPoll| >= RESET_BUDGET
  {
    var reset := ResetLog(e.intDisable, e.ehciCtl, t);
    if !ResetCompletes(rp.resetPoll) then reset
    else
      var programmed := ProgramLog(Word(SavedInterval(FrameInterval(e.fmInterval))), hcca, rp.afterReset, reset + [IsrDisable(Cookie(e.ee))]);
      var scanned := ConfigureLog(true, rp.port1, rp.port2, programmed);
      if ConfigureStuck(true, rp.port1, rp.port2) then scanned
      else scanned + [IsrRestore(Cookie(e.ee))]
  }

  /** hcdi_init, with `hcca` the physical address of the HCCA. */
  method Init(hw: Bus, hcca: bv32, rp: InitReplies) returns (outcome: InitOutcome)
    requires hw.Valid() && |rp.resetPoll| >= RESET_BUDGET
    modifies hw
    ensures hw.Valid()
    ensures hw.trace == InitLog(old(Entry(hw.Read32(FM_INTERVAL), hw.Read32(INT_DISABLE), hw.Read32(EHCI_CTL), hw.ee)),
                                hcca, rp, old(hw.trace))
    ensures outcome == InitOutcomeOf(rp)
    ensures hw.ee == (outcome != PortStuck && old(hw.ee))
  {
    var fmint, ok := RequestReset(hw, rp.resetPoll);
    if !ok {
      return ResetTimeout;
    }
    var cookie := Irq.Kill(hw);
    Program(hw, fmint, hcca, rp.afterReset);
    var stuck := ConfigurePorts(hw, true, rp.port1, rp.port2);
    if stuck {
      return PortStuck;
    }
    Irq.Restore(hw, cookie);
    outcome := Running;
  }

  // ---- what the bring-up guarantees ---------------------------------------

  /** When the reset does not complete within the budget, hcdi_init has only
      masked the controller's interrupts, routed the interrupt lines and
      requested the reset: no list head, HCCA, timing or port register is
      written and interrupts are never disabled. */
  lemma InitGivesUp(e: Entry, hcca: bv32, rp: InitReplies, t: seq<Event>)
    requires |rp.resetPoll| >= RESET_BUDGET && !ResetCompletes(rp.resetPoll)
    ensures var r := InitLog(e, hcca, rp, t);
            && Extends(r, t)
            && Written(r[|t|..]) == {INT_DISABLE, EHCI_CTL, COMMAND_STATUS}
            && forall e' :: e' in r[|t|..] ==> e'.Write?
  {
    var added := InitLog(e, hcca, rp, t)[|t|..];
    assert added == [Write(INT_DISABLE, SetBits(e.intDisable, INTR_MIE)),
                     Write(EHCI_CTL, SetBits(e.ehciCtl, EHCI_CTL_OHCI_INTE)), Write(COMMAND_STATUS, HCR)];
    assert added[0].addr == INT_DISABLE && added[1].addr == EHCI_CTL && added[2].addr == COMMAND_STATUS;
  }

  /** Nine writes, in order, to the registers the programming block sets. */
  function WriteBlock(ctrlHead: bv32, bulkHead: bv32, hcca: bv32, fmInterval: bv32, periodicStart: bv32,
                      control: bv32, rhStatus: bv32, intStatus: bv32, intEnable: bv32): seq<Event>
  {
    [Write(CTRL_HEAD_ED, ctrlHead), Write(BULK_HEAD_ED, bulkHead), Write(HCCA, hcca),
     Write(FM_INTERVAL, fmInterval), Write(PERIODIC_START, periodicStart),
     Write(CONTROL, control), Write(RH_STATUS, rhStatus),
     Write(INT_STATUS, intStatus), Write(INT_ENABLE, intEnable)]
  }

  /** The block of nine writes that programs the controller, on its own. */
  function ProgramBlock(fmint: bv32, hcca: bv32, afterReset: bv32): seq<Event>
  {
    WriteBlock(0, 0, hcca, fmint | ToggledFit(afterReset), Word(PeriodicStartOf(FrameInterval(afterReset))),
               CONTROL_INIT | USB_OPER, RH_HS_LPSC, 0xFFFF_FFFF, INTR_INIT)
  }

  lemma ProgramLogSplit(fmint: bv32, hcca: bv32, afterReset: bv32, t: seq<Event>)
    ensures ProgramLog(fmint, hcca, afterReset, t) == t + ProgramBlock(fmint, hcca, afterReset)
  {
  }

  /** Where the registers of the programming block sit. */
  lemma ProgramRegsAt()
    ensures CTRL_HEAD_ED == 0x0d05_0020 && BULK_HEAD_ED == 0x0d05_0028 && HCCA == 0x0d05_0018
    ensures FM_INTERVAL == 0x0d05_0034 && PERIODIC_START == 0x0d05_0040 && CONTROL == 0x0d05_0004
    ensures RH_STATUS == 0x0d05_0050 && INT_STATUS == 0x0d05_000C && INT_ENABLE == 0x0d05_0010
    ensures PORT1 == 0x0d05_0054 && PORT2 == 0x0d05_0058
  {
  }

  /** After the nine writes the model's register file holds, for the list
      heads, HcHCCA and HcRhStatus, the value last written to them, whatever
      they held before ... */
  lemma WriteBlockSetsHeads(m: map<Addr, bv32>, h0: bv32, h1: bv32, h2: bv32, h3: bv32, h4: bv32,
                            h5: bv32, h6: bv32, h7: bv32, h8: bv32)
    ensures var regs := Replay(m, WriteBlock(h0, h1, h2, h3, h4, h5, h6, h7, h8));
            && Peek(regs, CTRL_HEAD_ED) == h0 && Peek(regs, BULK_HEAD_ED) == h1
            && Peek(regs, HCCA) == h2 && Peek(regs, RH_STATUS) == h6
  {
    var b := WriteBlock(h0, h1, h2, h3, h4, h5, h6, h7, h8);
    ProgramRegsAt();
    ReplayLastWrite(m, b, 0, CTRL_HEAD_ED);
    ReplayLastWrite(m, b, 1, BULK_HEAD_ED);
    ReplayLastWrite(m, b, 2, HCCA);
    ReplayLastWrite(m, b, 6, RH_STATUS);
  }

  /** ... and so do HcFmInterval, HcPeriodicStart, HcControl and
      HcInterruptEnable. */
  lemma WriteBlockSetsTiming(m: map<Addr, bv32>, h0: bv32, h1: bv32, h2: bv32, h3: bv32, h4: bv32,
                             h5: bv32, h6: bv32, h7: bv32, h8: bv32)
    ensures var regs := Replay(m, WriteBlock(h0, h1, h2, h3, h4, h5, h6, h7, h8));
            && Peek(regs, FM_INTERVAL) == h3 && Peek(regs, PERIODIC_START) == h4
            && Peek(regs, CONTROL) == h5 && Peek(regs, INT_ENABLE) == h8
  {
    var b := WriteBlock(h0, h1, h2, h3, h4, h5, h6, h7, h8);
    ProgramRegsAt();
    ReplayLastWrite(m, b, 3, FM_INTERVAL);
    ReplayLastWrite(m, b, 4, PERIODIC_START);
    ReplayLastWrite(m, b, 5, CONTROL);
    ReplayLastWrite(m, b, 8, INT_ENABLE);
  }

  /** The reset request, the disable, then nine writes. */
  lemma ProgrammedShape(fmint: bv32, hcca: bv32, afterReset: bv32, e: Entry, t: seq<Event>)
    ensures var p := ProgramLog(fmint, hcca, afterReset, ResetLog(e.intDisable, e.ehciCtl, t) + [IsrDisable(Cookie(e.ee))]);
            && |p| == |t| + 13 && p[..|t|] == t && p[|t| + 3] == IsrDisable(Cookie(e.ee))
            && forall i :: |t| + 3 < i < |p| ==> p[i].Write?
  {
  }

  /** The events up to the end of the programming block: the reset request,
      the disable and the nine writes. */
  lemma AfterProgramming(e: Entry, hcca: bv32, rp: InitReplies, t: seq<Event>)
    requires |rp.resetPoll| >= RESET_BUDGET && ResetCompletes(rp.resetPoll)
    ensures var reset := ResetLog(e.intDisable, e.ehciCtl, t);
            var programmed := ProgramLog(Word(SavedInterval(FrameInterval(e.fmInterval))), hcca, rp.afterReset, reset + [IsrDisable(Cookie(e.ee))]);
            var r := InitLog(e, hcca, rp, t);
            && Extends(r, programmed) && Extends(programmed, t)
            && programmed[|t|..] == reset[|t|..] + [IsrDisable(Cookie(e.ee))]
                                    + ProgramBlock(Word(SavedInterval(FrameInterval(e.fmInterval))), hcca, rp.afterReset)
  {
    var fmint := Word(SavedInterval(FrameInterval(e.fmInterval)));
    var reset := ResetLog(e.intDisable, e.ehciCtl, t);
    var pre := reset + [IsrDisable(Cookie(e.ee))];
    var programmed := ProgramLog(fmint, hcca, rp.afterReset, pre);
    ProgramLogSplit(fmint, hcca, rp.afterReset, pre);
    ConfigureWrites(true, rp.port1, rp.port2, programmed);
  }

  /** The events after the programming block: the port scan, then the
      restore unless the scan spins forever. */
  lemma ScanRest(e: Entry, hcca: bv32, rp: InitReplies, t: seq<Event>)
    requires |rp.resetPoll| >= RESET_BUDGET && ResetCompletes(rp.resetPoll)
    ensures var reset := ResetLog(e.intDisable, e.ehciCtl, t);
            var programmed := ProgramLog(Word(SavedInterval(FrameInterval(e.fmInterval))), hcca, rp.afterReset, reset + [IsrDisable(Cookie(e.ee))]);
            var r := InitLog(e, hcca, rp, t);
            && |programmed| <= |r|
            && (forall e' :: e' in r[|programmed|..] ==> PortEvent(e') || e' == IsrRestore(Cookie(e.ee)))
            && (InitOutcomeOf(rp) == Running <==> r[|r| - 1] == IsrRestore(Cookie(e.ee)))
  {
    var fmint := Word(SavedInterval(FrameInterval(e.fmInterval)));
    var programmed := ProgramLog(fmint, hcca, rp.afterReset, ResetLog(e.intDisable, e.ehciCtl, t) + [IsrDisable(Cookie(e.ee))]);
    var scanned := ConfigureLog(true, rp.port1, rp.port2, programmed);
    ConfigureWrites(true, rp.port1, rp.port2, programmed);
    ProgrammedShape(fmint, hcca, rp.afterReset, e, t);
    var r := InitLog(e, hcca, rp, t);
    if !ConfigureStuck(true, rp.port1, rp.port2) {
      assert r[|programmed|..] == scanned[|programmed|..] + [IsrRestore(Cookie(e.ee))];
    } else {
      assert r == scanned;
      assert !PortEvent(IsrRestore(Cookie(e.ee)));
      assert r[|r| - 1] in r[|programmed|..];
    }
  }

  /** The port scan and the final restore leave every register other than
      the two port registers as they were. */
  lemma ScanKeeps(m: map<Addr, bv32>, rest: seq<Event>, c: Cookie, a: Addr)
    requires forall e :: e in rest ==> PortEvent(e) || e == IsrRestore(c)
    requires a != PORT1 && a != PORT2
    ensures Peek(Replay(m, rest), a) == Peek(m, a)
  {
    forall i | 0 <= i < |rest| && rest[i].Write?
      ensures rest[i].addr != a
    {
      assert rest[i] in rest;
    }
    ReplayUntouched(m, rest, a);
  }

  /** The registers after hcdi_init are those after the programming block,
      seen through the port scan. */
  lemma InitReplaySplit(m: map<Addr, bv32>, e: Entry, hcca: bv32, rp: InitReplies, t: seq<Event>)
    requires |rp.resetPoll| >= RESET_BUDGET && ResetCompletes(rp.resetPoll)
    ensures var fmint := Word(SavedInterval(FrameInterval(e.fmInterval)));
            var reset := ResetLog(e.intDisable, e.ehciCtl, t);
            var programmed := ProgramLog(fmint, hcca, rp.afterReset, reset + [IsrDisable(Cookie(e.ee))]);
            var r := InitLog(e, hcca, rp, t);
            var front := reset[|t|..] + [IsrDisable(Cookie(e.ee))];
            && |programmed| <= |r|
            && Replay(m, r[|t|..]) == Replay(Replay(Replay(m, front), ProgramBlock(fmint, hcca, rp.afterReset)), r[|programmed|..])
            && forall e' :: e' in r[|programmed|..] ==> PortEvent(e') || e' == IsrRestore(Cookie(e.ee))
  {
    var fmint := Word(SavedInterval(FrameInterval(e.fmInterval)));
    var reset := ResetLog(e.intDisable, e.ehciCtl, t);
    var programmed := ProgramLog(fmint, hcca, rp.afterReset, reset + [IsrDisable(Cookie(e.ee))]);
    var r := InitLog(e, hcca, rp, t);
    AfterProgramming(e, hcca, rp, t);
    var front := reset[|t|..] + [IsrDisable(Cookie(e.ee))];
    var block := ProgramBlock(fmint, hcca, rp.afterReset);
    var rest := r[|programmed|..];
    ScanRest(e, hcca, rp, t);
    AddedSplit(r, programmed, t);
    assert r[|t|..] == front + block + rest;
    ReplayAppend(m, front + block, rest);
    ReplayAppend(m, front, block);
  }

  /** The programming block followed by a port scan: the registers the block
      wrote keep their values. */
  lemma BlockThenScan(m: map<Addr, bv32>, fmint: bv32, hcca: bv32, afterReset: bv32, rest: seq<Event>, c: Cookie)
    requires forall e :: e in rest ==> PortEvent(e) || e == IsrRestore(c)
    ensures var regs := Replay(Replay(m, ProgramBlock(fmint, hcca, afterReset)), rest);
            && Peek(regs, CTRL_HEAD_ED) == 0 && Peek(regs, BULK_HEAD_ED) == 0 && Peek(regs, HCCA) == hcca
            && Peek(regs, FM_INTERVAL) == fmint | ToggledFit(afterReset)
            && Peek(regs, PERIODIC_START) == Word(PeriodicStartOf(FrameInterval(afterReset)))
            && Peek(regs, CONTROL) == CONTROL_INIT | USB_OPER
            && Peek(regs, INT_ENABLE) == INTR_INIT
  {
    var fm, ps := fmint | ToggledFit(afterReset), Word(PeriodicStartOf(FrameInterval(afterReset)));
    var m2 := Replay(m, ProgramBlock(fmint, hcca, afterReset));
    WriteBlockSetsHeads(m, 0, 0, hcca, fm, ps, CONTROL_INIT | USB_OPER, RH_HS_LPSC, 0xFFFF_FFFF, INTR_INIT);
    WriteBlockSetsTiming(m, 0, 0, hcca, fm, ps, CONTROL_INIT | USB_OPER, RH_HS_LPSC, 0xFFFF_FFFF, INTR_INIT);
    ProgramRegsAt();
    ScanKeeps(m2, rest, c, CTRL_HEAD_ED);
    ScanKeeps(m2, rest, c, BULK_HEAD_ED);
    ScanKeeps(m2, rest, c, HCCA);
    ScanKeeps(m2, rest, c, FM_INTERVAL);
    ScanKeeps(m2, rest, c, PERIODIC_START);
    ScanKeeps(m2, rest, c, CONTROL);
    ScanKeeps(m2, rest, c, INT_ENABLE);
  }

  /** Once the reset completes, hcdi_init leaves the controller with empty
      control and bulk lists, the HCCA installed, the computed frame timing,
      HcControl set to CONTROL_INIT|USB_OPER and OHCI_INTR_INIT enabled; the
      port scan after it does not change any of those registers. */
  lemma InitProgramsController(m: map<Addr, bv32>, e: Entry, hcca: bv32, rp: InitReplies, t: seq<Event>)
    requires |rp.resetPoll| >= RESET_BUDGET && ResetCompletes(rp.resetPoll)
    ensures var regs := Replay(m, InitLog(e, hcca, rp, t)[|t|..]);
            && Peek(regs, CTRL_HEAD_ED) == 0 && Peek(regs, BULK_HEAD_ED) == 0 && Peek(regs, HCCA) == hcca
            && Peek(regs, FM_INTERVAL) == Word(SavedInterval(FrameInterval(e.fmInterval))) | ToggledFit(rp.afterReset)
            && Peek(regs, PERIODIC_START) == Word(PeriodicStartOf(FrameInterval(rp.afterReset)))
            && Peek(regs, CONTROL) == CONTROL_INIT | USB_OPER
            && Peek(regs, INT_ENABLE) == INTR_INIT
  {
    var fmint := Word(SavedInterval(FrameInterval(e.fmInterval)));
    var reset := ResetLog(e.intDisable, e.ehciCtl, t);
    var programmed := ProgramLog(fmint, hcca, rp.afterReset, reset + [IsrDisable(Cookie(e.ee))]);
    var r := InitLog(e, hcca, rp, t);
    InitReplaySplit(m, e, hcca, rp, t);
    var m1 := Replay(m, reset[|t|..] + [IsrDisable(Cookie(e.ee))]);
    var rest := r[|programmed|..];
    BlockThenScan(m1, fmint, hcca, rp.afterReset, rest, Cookie(e.ee));
  }

  /** After the programming block only port-scan events follow, except for
      a restore as the very last event. */
  lemma ScanTail(e: Entry, hcca: bv32, rp: InitReplies, t: seq<Event>)
    requires |rp.resetPoll| >= RESET_BUDGET && ResetCompletes(rp.resetPoll)
    ensures var reset := ResetLog(e.intDisable, e.ehciCtl, t);
            var programmed := ProgramLog(Word(SavedInterval(FrameInterval(e.fmInterval))), hcca, rp.afterReset, reset + [IsrDisable(Cookie(e.ee))]);
            var r := InitLog(e, hcca, rp, t);
            && |programmed| <= |r|
            && (forall i :: |programmed| <= i < |r| - 1 ==> PortEvent(r[i]))
            && (|programmed| < |r| ==> PortEvent(r[|r| - 1]) || r[|r| - 1] == IsrRestore(Cookie(e.ee)))
  {
    var reset := ResetLog(e.intDisable, e.ehciCtl, t);
    var programmed := ProgramLog(Word(SavedInterval(FrameInterval(e.fmInterval))), hcca, rp.afterReset, reset + [IsrDisable(Cookie(e.ee))]);
    var scanned := ConfigureLog(true, rp.port1, rp.port2, programmed);
    ConfigureWrites(true, rp.port1, rp.port2, programmed);
    var r := InitLog(e, hcca, rp, t);
    assert Extends(r, scanned);
    forall i | |programmed| <= i < |scanned|
      ensures PortEvent(r[i])
    {
      assert r[i] == scanned[|programmed|..][i - |programmed|];
    }
    if |programmed| < |r| && |r| - 1 < |scanned| {
      assert r[|r| - 1] == scanned[|programmed|..][|r| - 1 - |programmed|];
    }
  }

  /** Every register write after the reset request lies inside one critical
      section: interrupts are disabled right after the reset with the state
      they had, and the same cookie restores that state as the very last
      step, unless a port scan spins forever. */
  lemma InitCriticalSection(e: Entry, hcca: bv32, rp: InitReplies, t: seq<Event>)
    requires |rp.resetPoll| >= RESET_BUDGET && ResetCompletes(rp.resetPoll)
    ensures var r := InitLog(e, hcca, rp, t);
            && |r| >= |t| + 4 && r[|t| + 3] == IsrDisable(Cookie(e.ee))
            && (forall i :: |t| + 3 < i < |r| && !r[i].Write? && !r[i].UsbAddDevice? ==> i == |r| - 1 && r[i] == IsrRestore(Cookie(e.ee)))
            && (InitOutcomeOf(rp) == Running <==> r[|r| - 1] == IsrRestore(Cookie(e.ee)))
  {
    var fmint := Word(SavedInterval(FrameInterval(e.fmInterval)));
    var programmed := ProgramLog(fmint, hcca, rp.afterReset, ResetLog(e.intDisable, e.ehciCtl, t) + [IsrDisable(Cookie(e.ee))]);
    var r := InitLog(e, hcca, rp, t);
    ProgrammedShape(fmint, hcca, rp.afterReset, e, t);
    AfterProgramming(e, hcca, rp, t);
    ScanRest(e, hcca, rp, t);
    ScanTail(e, hcca, rp, t);
    assert r[..|programmed|] == programmed;
    assert forall i :: 0 <= i < |programmed| ==> r[i] == programmed[i];
  }
}
