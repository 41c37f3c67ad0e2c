/** The older bring-up of the OHCI0 host controller (ohci_init in ohci.c).
    It follows the same steps as hcdi_init but ORs values into HcFmInterval,
    HcControl and HcRhStatus instead of writing them, never sets FSMP, and
    takes HcPeriodicStart from the interval as the reset left it. The three
    registers it reads back after the reset are changed by the controller,
    so what they read is given. */
module OhciLegacy {
  import opened Mmio
  import opened OhciRegs
  import opened Descriptors
  import opened HcdInit
  import Irq

  /** What the controller answers during ohci_init: the reads of the reset
      poll, and HcFmInterval, HcControl and HcRhStatus as the reset left
      them. */
  datatype LegacyReplies = LegacyReplies(resetPoll: seq<bv32>, fmInterval: bv32, control: bv32, rhStatus: bv32)

  /** The HcFmInterval value ohci_init writes, as written: the register
      with `fit ^ FIT` ORed in. */
  function LegacyFmInterval(reg: bv32): bv32
  {
    SetBits(reg, ToggledFit(reg))
  }

  /** The HcControl value ohci_init writes, as written: the register with
      CONTROL_INIT|USB_OPER ORed in. */
  function LegacyControl(reg: bv32): bv32
  {
    SetBits(reg, CONTROL_INIT | USB_OPER)
  }

  /** The trace `t` followed by the steps up to the reset wait: route both
      controllers' interrupts and OR HCR into HcCommandStatus. */
  function LegacyResetLog(ehciCtl: bv32, command: bv32, t: seq<Event>): seq<Event>
  {
    t + [Write(EHCI_CTL, SetBits(ehciCtl, EHCI_CTL_OHCI_INTE))] + [Write(COMMAND_STATUS, SetBits(command, HCR))]
  }

  /** The nine writes after the reset, in the order of ohci_init. */
  function LegacyBlock(hcca: bv32, rp: LegacyReplies): seq<Event>
  {
    WriteBlock(0, 0, hcca, LegacyFmInterval(rp.fmInterval), Word(PeriodicStartOf(FrameInterval(rp.fmInterval))),
               LegacyControl(rp.control), SetBits(rp.rhStatus, RH_HS_DRWE), 0xFFFF_FFFF, INTR_INIT)
  }

  /** The trace `t` followed by the nine writes. */
  function LegacyProgramLog(hcca: bv32, rp: LegacyReplies, t: seq<Event>): seq<Event>
  {
    t + [Write(CTRL_HEAD_ED, 0)] + [Write(BULK_HEAD_ED, 0)] + [Write(HCCA, hcca)]
    + [Write(FM_INTERVAL, LegacyFmInterval(rp.fmInterval))] + [Write(PERIODIC_START, Word(PeriodicStartOf(FrameInterval(rp.fmInterval))))]
    + [Write(CONTROL, LegacyControl(rp.control))] + [Write(RH_STATUS, SetBits(rp.rhStatus, RH_HS_DRWE))]
    + [Write(INT_STATUS, 0xFFFF_FFFF)] + [Write(INT_ENABLE, INTR_INIT)]
  }

  lemma LegacyProgramLogSplit(hcca: bv32, rp: LegacyReplies, t: seq<Event>)
    ensures LegacyProgramLog(hcca, rp, t) == t + LegacyBlock(hcca, rp)
  {
  }

  /** The trace `t` followed by what ohci_init does, entered with the EHCI
      control register, HcCommandStatus and the interrupt enable `ee`. */
  function LegacyLog(ehciCtl: bv32, command: bv32, ee: bool, hcca: bv32, rp: LegacyReplies, t: seq<Event>): seq<Event>
    requires |rp.resetPoll| >= RESET_BUDGET
  {
    var reset := LegacyResetLog(ehciCtl, command, t);
    if !ResetCompletes(rp.resetPoll) then reset
    else reset + [IsrDisable(Cookie(ee))] + LegacyBlock(hcca, rp) + [IsrRestore(Cookie(ee))]
  }

  /** The register writes of ohci_init between irq_kill and irq_restore. */
  method LegacyProgram(hw: Bus, hcca: bv32, rp: LegacyReplies)
    requires hw.Valid()
    modifies hw
    ensures hw.Valid() && hw.ee == old(hw.ee)
    ensures hw.trace == LegacyProgramLog(hcca, rp, old(hw.trace))
  {
    hw.Write32(CTRL_HEAD_ED, 0);
    hw.Write32(BULK_HEAD_ED, 0);
    hw.Write32(HCCA, hcca);
    var fmInterval := FrameInterval(rp.fmInterval);
    var fit := Masked(rp.fmInterval, FIT);
    hw.Write32(FM_INTERVAL, SetBits(rp.fmInterval, fit ^ FIT));
    hw.Write32(PERIODIC_START, Word(PeriodicStartOf(fmInterval)));
    hw.Write32(CONTROL, SetBits(rp.control, CONTROL_INIT | USB_OPER));
    hw.Write32(RH_STATUS, SetBits(rp.rhStatus, RH_HS_DRWE));
    hw.Write32(INT_STATUS, 0xFFFF_FFFF);
    hw.Write32(INT_ENABLE, INTR_INIT);
  }

  /** ohci_init, with `hcca` the physical address of its HCCA. Returns
      whether the reset completed within the budget. */
  method LegacyInit(hw: Bus, hcca: bv32, rp: LegacyReplies) returns (ok: bool)
    requires hw.Valid() && |rp.resetPoll| >= RESET_BUDGET
    modifies hw
    ensures hw.Valid() && hw.ee == old(hw.ee)
    ensures hw.trace == LegacyLog(old(hw.Read32(EHCI_CTL)), old(hw.Read32(COMMAND_STATUS)), old(hw.ee), hcca, rp, old(hw.trace))
    ensures ok == ResetCompletes(rp.resetPoll)
  {
    hw.Set32(EHCI_CTL, EHCI_CTL_OHCI_INTE);
    PeekOther(old(hw.regs), EHCI_CTL, SetBits(old(hw.Read32(EHCI_CTL)), EHCI_CTL_OHCI_INTE), COMMAND_STATUS);
    hw.Set32(COMMAND_STATUS, HCR);
    ok := WaitForReset(rp.resetPoll);
    if !ok {
      return;
    }
    var cookie := Irq.Kill(hw);
    LegacyProgram(hw, hcca, rp);
    LegacyProgramLogSplit(hcca, rp, old(hw.trace) + [Write(EHCI_CTL, SetBits(old(hw.Read32(EHCI_CTL)), EHCI_CTL_OHCI_INTE))]
                                    + [Write(COMMAND_STATUS, SetBits(old(hw.Read32(COMMAND_STATUS)), HCR))] + [IsrDisable(cookie)]);
    Irq.Restore(hw, cookie);
  }

  // ---- what the older bring-up guarantees ---------------------------------

  /** When the reset does not complete within the budget, ohci_init has only
      written the EHCI control register and HcCommandStatus: no list head,
      HCCA or timing register is touched and interrupts are never
      disabled. */
  lemma LegacyGivesUp(ehciCtl: bv32, command: bv32, ee: bool, hcca: bv32, rp: LegacyReplies, t: seq<Event>)
    requires |rp.resetPoll| >= RESET_BUDGET && !ResetCompletes(rp.resetPoll)
    ensures var r := LegacyLog(ehciCtl, command, ee, hcca, rp, t);
            && Extends(r, t)
            && Written(r[|t|..]) == {EHCI_CTL, COMMAND_STATUS}
            && forall e :: e in r[|t|..] ==> e.Write?
  {
    var added := LegacyLog(ehciCtl, command, ee, hcca, rp, t)[|t|..];
    assert added == [Write(EHCI_CTL, SetBits(ehciCtl, EHCI_CTL_OHCI_INTE)), Write(COMMAND_STATUS, SetBits(command, HCR))];
    assert added[0].addr == EHCI_CTL && added[1].addr == COMMAND_STATUS;
  }

  /** The reset is requested by ORing HCR in: the other bits of
      HcCommandStatus are written back as they were. */
  lemma LegacyResetKeepsCommand(ehciCtl: bv32, command: bv32, t: seq<Event>)
    ensures var r := LegacyResetLog(ehciCtl, command, t);
            && |r| == |t| + 2 && r[|t| + 1].Write? && r[|t| + 1].addr == COMMAND_STATUS
            && AnySet(r[|t| + 1].value, HCR)
            && Masked(r[|t| + 1].value, !HCR) == Masked(command, !HCR)
  {
  }

  /** Once the reset completes, every write after it lies inside one
      critical section: the disable comes first, the restore with the same
      cookie comes last, and between them come exactly the nine writes. */
  lemma LegacyCriticalSection(ehciCtl: bv32, command: bv32, ee: bool, hcca: bv32, rp: LegacyReplies, t: seq<Event>)
    requires |rp.resetPoll| >= RESET_BUDGET && ResetCompletes(rp.resetPoll)
    ensures var r := LegacyLog(ehciCtl, command, ee, hcca, rp, t);
            && |r| == |t| + 13
            && r[|t| + 2] == IsrDisable(Cookie(ee)) && r[|r| - 1] == IsrRestore(Cookie(ee))
            && r[|t| + 3..|r| - 1] == LegacyBlock(hcca, rp)
  {
    var r := LegacyLog(ehciCtl, command, ee, hcca, rp, t);
    var reset := LegacyResetLog(ehciCtl, command, t);
    assert r == reset + [IsrDisable(Cookie(ee))] + LegacyBlock(hcca, rp) + [IsrRestore(Cookie(ee))];
  }

  /** The registers ohci_init leaves behind when the reset completes: empty
      control and bulk lists, the HCCA installed, HcFmInterval and HcControl
      ORed, HcPeriodicStart from the interval read before the rewrite,
      DRWE set in HcRhStatus and OHCI_INTR_INIT enabled. */
  lemma LegacyProgramsController(m: map<Addr, bv32>, ehciCtl: bv32, command: bv32, ee: bool, hcca: bv32, rp: LegacyReplies, t: seq<Event>)
    requires |rp.resetPoll| >= RESET_BUDGET && ResetCompletes(rp.resetPoll)
    ensures var regs := Replay(m, LegacyLog(ehciCtl, command, ee, hcca, rp, t)[|t|..]);
            && Peek(regs, CTRL_HEAD_ED) == 0 && Peek(regs, BULK_HEAD_ED) == 0 && Peek(regs, HCCA) == hcca
            && Peek(regs, FM_INTERVAL) == LegacyFmInterval(rp.fmInterval)
            && Peek(regs, PERIODIC_START) == Word(PeriodicStartOf(FrameInterval(rp.fmInterval)))
            && Peek(regs, CONTROL) == LegacyControl(rp.control)
            && Peek(regs, RH_STATUS) == SetBits(rp.rhStatus, RH_HS_DRWE)
            && Peek(regs, INT_ENABLE) == INTR_INIT
  {
    var front := LegacyResetLog(ehciCtl, command, t)[|t|..] + [IsrDisable(Cookie(ee))];
    var block := LegacyBlock(hcca, rp);
    var r := LegacyLog(ehciCtl, command, ee, hcca, rp, t);
    assert r[|t|..] == front + block + [IsrRestore(Cookie(ee))];
    ReplayAppend(m, front + block, [IsrRestore(Cookie(ee))]);
    ReplayOne(Replay(m, front + block), IsrRestore(Cookie(ee)));
    ReplayAppend(m, front, block);
    var m1 := Replay(m, front);
    var fm, ps := LegacyFmInterval(rp.fmInterval), Word(PeriodicStartOf(FrameInterval(rp.fmInterval)));
    var ctrl, rh := LegacyControl(rp.control), SetBits(rp.rhStatus, RH_HS_DRWE);
    WriteBlockSetsHeads(m1, 0, 0, hcca, fm, ps, ctrl, rh, 0xFFFF_FFFF, INTR_INIT);
    WriteBlockSetsTiming(m1, 0, 0, hcca, fm, ps, ctrl, rh, 0xFFFF_FFFF, INTR_INIT);
  }

  /** Rewriting HcFmInterval leaves its FI field alone, so taking
      HcPeriodicStart from the value read before the rewrite gives what the
      rewritten register would give. */
  lemma LegacyPeriodicStartFromInterval(reg: bv32)
    ensures FrameInterval(LegacyFmInterval(reg)) == FrameInterval(reg)
    ensures PeriodicStartOf(FrameInterval(LegacyFmInterval(reg))) == PeriodicStartOf(FrameInterval(reg))
  {
    assert LegacyFmInterval(reg) & 0x3fff == reg & 0x3fff;
  }

  // ---- HcFmInterval: FIT is set, never toggled off ------------------------

  /** The OR clears no bit of HcFmInterval and always leaves FIT set, so
      FSMP is never written and FIT never goes from one to zero. */
  lemma LegacyFmIntervalOnlySets(reg: bv32)
    ensures Masked(reg, !LegacyFmInterval(reg)) == 0
    ensures AnySet(LegacyFmInterval(reg), FIT)
    ensures Masked(LegacyFmInterval(reg), !FIT) == Masked(reg, !FIT)
  {
  }

  /** A register that reads FIT set is written back unchanged: for the
      nominal interval with FIT set, the written value is the read one. */
  lemma LegacyFitNotToggled()
    ensures LegacyFmInterval(0x8000_2EDF) == 0x8000_2EDF
    ensures AnySet(0x8000_2EDF, FIT) && AnySet(LegacyFmInterval(0x8000_2EDF), FIT)
  {
  }

  /** HcFmInterval rewritten with FIT toggled and every other bit kept. */
  function ToggledFmInterval(reg: bv32): (w: bv32)
    ensures AnySet(w, FIT) <==> !AnySet(reg, FIT)
    ensures Masked(w, !FIT) == Masked(reg, !FIT)
  {
    ClearBits(reg, FIT) | ToggledFit(reg)
  }

  /** The written value toggles FIT exactly when FIT read clear. */
  lemma LegacyFmIntervalTogglesIff(reg: bv32)
    ensures LegacyFmInterval(reg) == ToggledFmInterval(reg) <==> !AnySet(reg, FIT)
  {
    if AnySet(reg, FIT) {
      assert AnySet(LegacyFmInterval(reg), FIT) && !AnySet(ToggledFmInterval(reg), FIT);
    }
  }

  // ---- HcControl: a suspended controller stays suspended ------------------

  /** The OR clears no bit of HcControl and always sets CONTROL_INIT. */
  lemma LegacyControlOnlySets(reg: bv32)
    ensures Masked(reg, !LegacyControl(reg)) == 0
    ensures Masked(LegacyControl(reg), CONTROL_INIT) == CONTROL_INIT
  {
  }

  /** The functional state written is USBOPERATIONAL exactly when the one
      read had the low HCFS bit clear (USBRESET or USBOPERATIONAL); from
      USBRESUME or USBSUSPEND it stays USBSUSPEND. */
  lemma LegacyControlOperationalIff(reg: bv32)
    ensures Masked(LegacyControl(reg), CTRL_HCFS) == USB_OPER <==> !AnySet(reg, USB_RESUME)
    ensures AnySet(reg, USB_RESUME) ==> Masked(LegacyControl(reg), CTRL_HCFS) == USB_SUSPEND
  {
  }

  /** After the software reset the controller is in USBSUSPEND; ORing in
      USB_OPER leaves it there. */
  lemma LegacyStaysSuspended()
    ensures Masked(LegacyControl(USB_SUSPEND), CTRL_HCFS) == USB_SUSPEND
  {
  }

  /** HcControl rewritten into USBOPERATIONAL with CONTROL_INIT set and
      every bit outside HCFS and CBSR kept. */
  function OperationalControl(reg: bv32): (c: bv32)
    ensures Masked(c, CTRL_HCFS) == USB_OPER
    ensures Masked(c, CTRL_CBSR) == CONTROL_INIT
    ensures Masked(c, !(CTRL_HCFS | CTRL_CBSR)) == Masked(reg, !(CTRL_HCFS | CTRL_CBSR))
  {
    ClearBits(reg, CTRL_HCFS) | CONTROL_INIT | USB_OPER
  }

  /** The OR gives the operational value exactly when the low HCFS bit read
      clear; from a cleared register it gives what hcdi_init writes. */
  lemma LegacyControlAgreesIff(reg: bv32)
    ensures LegacyControl(reg) == OperationalControl(reg) <==> !AnySet(reg, USB_RESUME)
    ensures OperationalControl(0) == CONTROL_INIT | USB_OPER
  {
    if AnySet(reg, USB_RESUME) {
      LegacyControlOperationalIff(reg);
      assert Masked(LegacyControl(reg), CTRL_HCFS) != Masked(OperationalControl(reg), CTRL_HCFS);
    }
  }
}
