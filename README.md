# ppcskel: OHCI host controller driver, interrupt controller and debug helpers

This project models the bare-metal PowerPC side of ppcskel for the Wii in
Dafny. The modelled parts are:

- **The OHCI0 USB host controller driver** (`usb/host/ohci.c`):
  - the byte swap `ACCESS_LE`;
  - endpoint and transfer descriptor allocation and `general_td_fill`;
  - the control-list erratum workaround `control_quirk`;
  - the three-stage `hcdi_enqueue`;
  - controller bring-up `hcdi_init`;
  - root-hub port enumeration (`configure_ports`, `setup_port`);
  - the interrupt service routine `hcdi_irq`.
- **The older bring-up `ohci_init`** (`ohci.c`).
- **The register map, bit layouts and HCCA layout** (`ohci.h`).
- **The two-level interrupt controller** (`irq.c`):
  - `irq_initialize` and `irq_shutdown`;
  - the handler `irq_handler`;
  - the four mask helpers;
  - `irq_kill` and `irq_restore`.
- **From `main.c`:** the debug helpers `ascii` and `hexdump`, and the one-block message padding of the brute-force loop.

## How the hardware is represented

The hardware is the class `Mmio.Bus`. It has three parts:

- a register file (`regs`, keyed by physical address);
- the CPU's external-interrupt enable bit (`ee`);
- an append-only `trace` of what the driver did. The trace records register writes, interrupt disable/restore/enable with their cookies, and hand-offs of a new device to the USB core.

A ghost invariant ties the register file to the boot state with the trace's writes replayed. Every driver routine is a method that does the following:

- updates the bus through `Write32`, `Set32`, `Clear32`, `DisableIsr` and `RestoreIsr`;
- ensures that the new trace is a specification function of the old one (`hw.trace == IrqLog(rp, old(hw.trace))`);
- ensures that its result is another specification function.

The properties the driver promises are lemmas about those functions.

`regs` holds, for each address, the last value the driver wrote there (or the boot value). That is not always what a read returns. HcRhStatus, HcInterruptEnable, HcInterruptDisable, HcInterruptStatus and HcCommandStatus have write-1-to-set or write-1-to-clear bits: for them `regs` records the last write, not the register's contents.

Some registers are changed by the controller itself. These are HcCommandStatus during a reset, HcControlCurrentED, the port status registers, HcInterruptStatus and the interrupt flag registers. Their reads are given to the model as parameters, as the sequence of successive replies. A busy-wait that no reply ends is reported as "stuck" instead of looping.

Descriptors that the controller reads from memory are classes:

- `Descriptors.Ed` for the endpoint descriptor;
- `Descriptors.Td` for the transfer descriptor, with its buffer as an `array<bv8>`.

Their words are stored in controller byte order, exactly as `ACCESS_LE` leaves them.

The static state of `control_quirk` and `hcdi_enqueue` is the class `HcdControl.Hcd`. It holds the dummy ED and TD, the stage counter `first`, and the stashed setup and data TDs.

`main.c`'s `hexdump` is a method that builds the printed text with the same loops. The padding is a method on a 64-byte `array`.

## Model

| member | source | states |
|---|---|---|
| Bits.AccessLeSwapsBytes | usb/host/ohci.c:24-27 | byte k of the swapped word is byte 3-k of the original |
| Bits.AccessLe | usb/host/ohci.c:24-27 | ACCESS_LE, the swap of the word's four bytes; AccessLeSwapsBytes, AccessLeReversesBytes, AccessLeInvolutive and AccessLeBitwise state what it does |
| Bits.Reverse | usb/host/ohci.c:24-27 | the reversal of a byte sequence: same length, element i is element n-1-i of the input |
| Bits.AccessLeReversesBytes | usb/host/ohci.c:24-27 | ACCESS_LE is exactly the reversal of the word's four bytes |
| Bits.AccessLeInvolutive | usb/host/ohci.c:21-27 | swapping twice gives back the word, so reading a field with ACCESS_LE recovers what was stored with it |
| Bits.AccessLeBitwise | usb/host/ohci.c:24-27 | the swap commutes with AND and OR, so ORing swapped flags into a swapped word is ORing the flags |
| Descriptors.Ed.constructor | usb/host/ohci.c:40-47 | a new ED has general-format flags and zero head, tail and next pointers, in controller byte order |
| Descriptors.Td.constructor | usb/host/ohci.c:49-66 | a new TD has no flags and no next TD; cbp/be delimit its buffer |
| Descriptors.TdBuffer | usb/host/ohci.c:57-65 | no buffer gives cbp = be = 0; otherwise cbp is the start and be - cbp + 1 is the size, modulo 2^32 |
| Descriptors.AllocateEndpoint | usb/host/ohci.c:40-47 | returns null exactly when memalign does; otherwise an initialised ED at that address |
| Descriptors.AllocateGeneralTd | usb/host/ohci.c:49-66 | returns null exactly when memalign does; otherwise an empty TD whose cbp/be delimit a zeroed buffer of the requested size |
| Descriptors.PidBits | usb/host/ohci.c:179-216 | per PID: the DP code, the data toggle (DATA0 for SETUP, DATA1 for OUT, carry for IN) and rounding, and no bit outside the fields the fill touches |
| Descriptors.PidCode | usb/host/ohci.c:178-217 | the DP code the fill writes per PID: SETUP, OUT, IN, and the SETUP code for any other PID; PidBits and FilledFlagsFields state it |
| Descriptors.FilledFlags | usb/host/ohci.c:178-217 | the decoded flags after general_td_fill; FilledFlagsFields, FreshTdFlags and FillIdempotent state what they are |
| Descriptors.FilledFlagsFields | usb/host/ohci.c:178-217 | after the fill, DP holds the PID, DI is 7, R is set for SETUP/OUT/IN, the toggle gains the PID's bits, and every other bit is unchanged |
| Descriptors.FreshTdFlags | usb/host/ohci.c:178-217 | on a fresh TD the fill gives 0x02E40000 (SETUP), 0x03EC0000 (OUT), 0x00F40000 (IN) and 0x00E00000 for any other PID |
| Descriptors.FillIdempotent | usb/host/ohci.c:178-217 | filling again with the same PID changes nothing |
| Descriptors.FillGeneralTd | usb/host/ohci.c:175-220 | the buffer starts with the transfer's bytes and keeps the rest; the flags are the fill's flags; cbp, be and next are untouched |
| Descriptors.SetPidFields | usb/host/ohci.c:179-216 | the switch ORs exactly the PID's bits into the decoded flags and touches nothing else |
| OhciRegs.Ohci1MirrorsOhci0 | ohci.h:8-67 | each OHCI1 register has its OHCI0 counterpart's offset, and the two banks do not overlap |
| OhciRegs.RegistersDistinct | ohci.h:10-35 | no two OHCI0 registers share an address |
| OhciRegs.Offset | ohci.h:10-35 | each register's offset from its controller's base; Ohci1MirrorsOhci0 and RegistersDistinct state the layout |
| OhciRegs.EdDeviceAddress | usb/host/ohci.c:270 | the FA field setter, an unmasked value; DummyEdFields states where in-range values land |
| OhciRegs.EdEndpointNumber | usb/host/ohci.c:271 | the EN field setter, the number shifted to bit 7; DummyEdFields states where in-range values land |
| OhciRegs.EdMaxPacketSize | usb/host/ohci.c:272 | the MPS field setter, the size shifted to bit 16; DummyEdFields states where in-range values land |
| OhciRegs.HcfsEncodings | ohci.h:89-98 | the four functional states are distinct and fit inside the HCFS field |
| OhciRegs.IntrInitValue | ohci.h:115-123 | OHCI_INTR_INIT is 0x8000005A: MIE, RHSC, UE, RD and WDH, and none of SO, SF, FNO, OC |
| OhciRegs.ChangeBitsMirrorStatusBits | ohci.h:151-162 | every port change bit is its status bit shifted up by 16 |
| OhciRegs.HccaLayout | ohci.h:185-197 | the HCCA is 256 bytes, with frame_no at 0x80 and done_head at 0x84 |
| Mmio.FirstSet | usb/host/ohci.c:465 | the index of the first reply with an awaited bit set, with every earlier reply clear, or -1 when none is set |
| Mmio.Spin | usb/host/ohci.c:465 | the busy-wait loop stops at the first reply that shows an awaited bit |
| Mmio.Bus.Write32 | usb/host/ohci.c:121 | write32: `regs` takes the value at the address and the trace gains exactly that write; the interrupt enable is kept |
| Mmio.Bus.Set32 | usb/host/ohci.c:124 | set32: one write of the value read with the bits ORed in |
| Mmio.Bus.Clear32 | irq.c:167 | clear32: one write of the value read with the bits cleared |
| Mmio.Bus.DisableIsr | irq.c:180-184 | _CPU_ISR_Disable: interrupts off, registers kept, the cookie records whether they were on |
| Mmio.Bus.RestoreIsr | irq.c:186-189 | _CPU_ISR_Restore: the interrupt enable becomes what the cookie recorded, registers kept |
| Mmio.Bus.EnableIsr | irq.c:37 | _CPU_ISR_Enable: interrupts on, registers kept |
| Irq.EnableSetsOneBit | irq.c:161-173 | enabling a line sets its bit and keeps every other bit |
| Irq.DisableClearsOneBit | irq.c:166-178 | disabling a line clears its bit and keeps every other bit |
| Irq.DisableUndoesEnable | irq.c:161-178 | disabling after enabling a line that was off restores the mask |
| Irq.EnableUndoesDisable | irq.c:161-178 | enabling after disabling a line that was on restores the mask |
| Irq.BwEnable | irq.c:161-164 | BW_PI_IRQMASK gains the line's bit in one read-modify-write |
| Irq.BwDisable | irq.c:166-168 | BW_PI_IRQMASK loses the line's bit in one read-modify-write |
| Irq.HwEnable | irq.c:170-173 | HW_PPCIRQMASK gains the line's bit in one read-modify-write |
| Irq.HwDisable | irq.c:175-178 | HW_PPCIRQMASK loses the line's bit in one read-modify-write |
| Irq.Kill | irq.c:180-184 | interrupts are off, registers untouched, and the cookie records whether they were on |
| Irq.Restore | irq.c:186-189 | the interrupt enable is whatever the cookie recorded; registers untouched |
| Irq.Initialize | irq.c:20-38 | masks both controllers, clears all their flags, clears the extra mask, then enables interrupts |
| Irq.InitializeLog | irq.c:20-38 | the writes of irq_initialize, then the enable; InitializeMasksAll and InitializedHandlerIsQuiet state what they leave |
| Irq.InitializeMasksAll | irq.c:20-35 | after initialisation both masks read 0 and both flag registers were written all ones |
| Irq.Shutdown | irq.c:40-45 | masks and clears the Hollywood controller, then leaves interrupts disabled |
| Irq.ShutdownLog | irq.c:40-45 | the writes of irq_shutdown, then the disable; Shutdown states that interrupts end disabled |
| Irq.Dispatch | irq.c:67-147 | the second level's writes only extend the trace |
| Irq.DispatchStep | irq.c:88-141 | a source whose branch returns contributes its own branch, then the branches after it |
| Irq.AckIfPending | irq.c:88-141 | one returning branch: silences and acknowledges its source only when it is pending |
| Irq.AckUnknown | irq.c:143-147 | clears, in one write, the pending bits no known source owns |
| Irq.AckLog | irq.c:88-141 | the writes of one source's branch; AckLogAdds, AckLogWrites and AckLogAcks state them |
| Irq.Unknown | irq.c:143 | the pending bits outside IRQF_ALL; AllCovers and UnknownIsNoAck state that they never touch a known source |
| Irq.AckSilenced | irq.c:88-106 | the NAND, GPIO1B and GPIO1 branches, as three steps of the dispatch |
| Irq.AckPlain | irq.c:107-125 | the RESET, IPC, AES and SDHC branches, as four steps of the dispatch |
| Irq.HandleHollywood | irq.c:65-147 | the second level's writes and ending are those of the dispatch over all sources |
| Irq.Handler | irq.c:47-159 | the handler's writes and ending are Handle / HandleEnding of the masks and flags it reads |
| Irq.Handle | irq.c:47-147 | the handler's writes from the masks and flags it reads; HandleWrites, HandleAcks, MaskedSourceIgnored and HandleQuietWhenMasked state them |
| Irq.HandleEnding | irq.c:47-159 | whether the handler returns or stops in a branch; HandleEndingCases states when it stops |
| IrqFacts.AllCovers | irq.c:143 | every known source's bits lie inside IRQF_ALL, so the unknown-source write never clears a known source |
| IrqFacts.UnknownIsNoAck | irq.c:143-146 | the unknown-source write never equals a known source's acknowledgement |
| IrqFacts.AckLogAdds | irq.c:88-141 | acknowledging a source adds its silencing write, if any, then its flag clear |
| IrqFacts.AckLogWrites | irq.c:88-141 | every acknowledgement write goes to HW_PPCIRQFLAG or to a device it silences |
| IrqFacts.AckLogAcks | irq.c:88-141 | a source's flag clear is written by that source's own branch only |
| IrqFacts.StepLogAdds | irq.c:67-141 | a source's branch adds its acknowledgement when it is pending, and nothing otherwise |
| IrqFacts.UnknownLogAdds | irq.c:143-147 | the tail adds exactly one write of the unknown bits when there are any, and nothing otherwise |
| IrqFacts.DispatchWrites | irq.c:67-147 | the second level writes only HW_PPCIRQFLAG and the three devices it silences |
| IrqFacts.DispatchAcks | irq.c:67-141 | a source's flag is cleared exactly when it is pending and no earlier branch stopped the handler |
| IrqFacts.DispatchEndingCases | irq.c:67-141 | the second level stops in a source's branch exactly when that source is pending, never returns, and was reached; otherwise it returns |
| IrqFacts.DispatchLastWrite | irq.c:67-147 | a stopped handler's last write cleared the stopping source; a returning one with unknown bits ends with the one write that clears them |
| IrqFacts.HandleWrites | irq.c:47-159 | BW_PI_IRQFLAG is written only to clear the reset button, exactly when it is pending and enabled; every other write is second-level |
| IrqFacts.HandleAcks | irq.c:47-141 | a Hollywood source's flag is cleared exactly when the cascade is serviced, the source is pending and enabled, and it was reached |
| IrqFacts.MaskedSourceIgnored | irq.c:59-65 | a source whose HW_PPCIRQMASK bit is clear is never acknowledged |
| IrqFacts.DisabledLineIgnored | irq.c:175-178 | after irq_hw_disable of a source's line, the handler leaves that source's flag alone |
| IrqFacts.HandleEndingCases | irq.c:67-141 | the handler stops in the TIMER or OHCI0 branch exactly when that source is pending, enabled and reached, with its flag clear as its last write |
| IrqFacts.HandleQuietWhenMasked | irq.c:49-59 | with BW_PI_IRQMASK zero the handler writes nothing and returns |
| IrqFacts.InitializedHandlerIsQuiet | irq.c:20-59 | right after irq_initialize, the handler writes nothing and returns, whatever the flags say |
| HcdPorts.SetupPort | usb/host/ohci.c:447-472 | the port's writes and the outcome (untouched, not enabled, stuck, added) follow from the status replies |
| HcdPorts.PortLog | usb/host/ohci.c:447-472 | the writes of setup_port; PortFollowsSteps, PortActsIffWanted and PortAddsIff state them |
| HcdPorts.PortFollowsSteps | usb/host/ohci.c:447-472 | setup_port performs a prefix of: clear CSC, set PES, set PRS, hand the device over; the prefix ends at the failed PES check or the stuck reset |
| HcdPorts.PortActsIffWanted | usb/host/ohci.c:449-450 | the port is touched exactly when CCS is set and either CSC is set or the call comes from initialisation |
| HcdPorts.PortAddsIff | usb/host/ohci.c:450-470 | a device is handed over exactly when the guard holds, PES reads back set and some poll shows PRSC |
| HcdPorts.ConfigurePorts | usb/host/ohci.c:434-445 | port 1, then port 2; stuck exactly when either port's reset never completes |
| HcdPorts.ConfigureLog | usb/host/ohci.c:434-445 | the writes of configure_ports; ConfigureWrites states their order |
| HcdPorts.ConfigureWrites | usb/host/ohci.c:442-443 | of the driver's own writes, only the two port registers are written, port 1 strictly first, and port 2 not at all when port 1 is stuck (the USB core's writes after a device hand-off are not modelled) |
| HcdIrq.Irq | usb/host/ohci.c:474-539 | the routine's writes and whether it hangs follow from the status, enable and port replies |
| HcdIrq.IrqLog | usb/host/ohci.c:474-539 | the writes of hcdi_irq; IrqQuietIff, IrqTail, IrqAcks, IrqEnablesLast and IrqWrites state them |
| HcdIrq.RootHubLog | usb/host/ohci.c:502-514 | the RHSC/RD branch's writes; RootHubLogAdds states them |
| HcdIrq.RootHubLogAdds | usb/host/ohci.c:502-514 | ports are rescanned only for RHSC, which acknowledges RD and RHSC once the rescan returns; RD alone acknowledges RD; HcInterruptEnable is not written |
| HcdIrq.IrqQuietIff | usb/host/ohci.c:477-492 | nothing is written exactly when the status reads all ones or no enabled interrupt is pending |
| HcdIrq.IrqTail | usb/host/ohci.c:534-538 | a serviced call ends by writing back the handled flags and then MIE to HcInterruptEnable |
| HcdIrq.IrqAcks | usb/host/ohci.c:502-538 | HcInterruptStatus receives the branch acknowledgement, then exactly the pending enabled flags |
| HcdIrq.IrqEnablesLast | usb/host/ohci.c:536-537 | HcInterruptEnable is written once, as the last action, with MIE alone |
| HcdIrq.IrqWrites | usb/host/ohci.c:474-539 | of the driver's own writes, only HcInterruptStatus, HcInterruptEnable and the ports are written, and the ports only when RHSC is pending and enabled (the USB core's writes after a device hand-off are not modelled) |
| HcdInit.FrameInterval | usb/host/ohci.c:366 | the FI field is below 2^14 |
| HcdInit.Fsmp | usb/host/ohci.c:364 | FSMP in 32-bit unsigned arithmetic masked to 15 bits; FsmpIsSixSevenths and FsmpWrapsBelow210 state its value |
| HcdInit.SavedInterval | usb/host/ohci.c:364-369 | fmint ORed with FSMP(fmint) << 16; SavedIntervalFields states its fields |
| HcdInit.ToggledFit | usb/host/ohci.c:403-407 | `fit ^ FIT`; FitIsToggled states that it is FIT exactly when the read had it clear |
| HcdInit.PeriodicStartOf | usb/host/ohci.c:408 | `((9 * fi) / 10) & 0x3fff`; PeriodicStartIsNinetyPercent states that it is 90% of FI |
| HcdInit.SavedIntervalFields | usb/host/ohci.c:364-369 | the saved interval holds FI in bits 0-13, FSMP from bit 16, and FIT clear |
| HcdInit.FitIsToggled | usb/host/ohci.c:403-407 | the written FIT is set exactly when the register read it clear, and nothing else comes from that read |
| HcdInit.FsmpIsSixSevenths | usb/host/ohci.c:364 | for FI of at least 210, FSMP is the floor of 6(FI - 210)/7 |
| HcdInit.FsmpWrapsBelow210 | usb/host/ohci.c:364 | below 210 the unsigned subtraction wraps (FSMP of 0 is 0x4870) |
| HcdInit.PeriodicStartIsNinetyPercent | usb/host/ohci.c:408 | HcPeriodicStart is the floor of 90% of FI |
| HcdInit.NominalTiming | usb/host/ohci.c:364-408 | for the nominal FI 0x2EDF, FSMP is 0x2778, HcFmInterval is 0xA7782EDF or 0x27782EDF by the FIT read, and HcPeriodicStart is 0x2A2F |
| HcdInit.WaitForReset | usb/host/ohci.c:377-385 | the countdown loop succeeds exactly when one of the first 30 reads shows HCR clear |
| HcdInit.RequestReset | usb/host/ohci.c:360-385 | writes HcInterruptDisable with its value as read (in the model, `regs`) ORed with MIE (which, as HcInterruptDisable reads back the current enables, disables every enabled interrupt), routes the interrupt lines and requests the reset; returns the saved interval and whether the reset completed |
| HcdInit.ResetLog | usb/host/ohci.c:360-376 | the writes up to the reset request; RequestReset and InitGivesUp state them |
| HcdInit.Program | usb/host/ohci.c:395-423 | the nine set-up writes, in source order, with the computed timing values |
| HcdInit.ProgramLog | usb/host/ohci.c:395-423 | the nine set-up writes; ProgramRegsAt, WriteBlockSetsHeads and WriteBlockSetsTiming state them |
| HcdInit.Init | usb/host/ohci.c:355-432 | hcdi_init's writes and outcome (reset timeout, port stuck, running); interrupts are back as on entry unless a port hangs |
| HcdInit.InitLog | usb/host/ohci.c:355-432 | the writes of hcdi_init; InitGivesUp, InitProgramsController and InitCriticalSection state them |
| HcdInit.InitGivesUp | usb/host/ohci.c:374-385 | after a reset timeout, only the interrupt mask, the routing and the reset request were written, and interrupts were never disabled |
| HcdInit.ProgramRegsAt | ohci.h:10-35 | the set-up writes go to the OHCI0 registers at their documented addresses |
| HcdInit.WriteBlockSetsHeads | usb/host/ohci.c:395-400 | after the set-up, the model's `regs` holds for the list heads, HcHCCA and HcRhStatus the last value written to them |
| HcdInit.WriteBlockSetsTiming | usb/host/ohci.c:407-423 | after the set-up, the model's `regs` holds for HcFmInterval, HcPeriodicStart, HcControl and HcInterruptEnable the last value written to them |
| HcdInit.ScanKeeps | usb/host/ohci.c:428-429 | the port scan's own writes and the restore change no register but the two ports (the USB core's writes after a device hand-off are not modelled) |
| HcdInit.InitProgramsController | usb/host/ohci.c:393-429 | after a completed reset the model's `regs` holds empty lists, the HCCA, the computed timing, CONTROL_INIT and OPER, and the INIT interrupts enabled; this is the state hcdi_init leaves only when no device is handed to the USB core during the port scan |
| HcdInit.InitCriticalSection | usb/host/ohci.c:387-429 | every write after the reset lies between one disable and its matching restore, which is the last event unless a port hangs |
| HcdControl.QuirkQuietIff | usb/host/ohci.c:112-141 | control_quirk writes nothing exactly when it has no dummy ED or the control list is empty |
| HcdControl.QuirkLoadsDummy | usb/host/ohci.c:119-125 | when ControlListFilled is written, the dummy ED is the list head and CLE is set |
| HcdControl.QuirkRestores | usb/host/ohci.c:136-138 | a quirk that returns leaves every register but HcCommandStatus as on entry |
| HcdControl.ScheduleLeaves | usb/host/ohci.c:273-331 | a returning schedule leaves the new ED as list head, CLE cleared and the other HcControl bits kept |
| HcdControl.EnqueueLeaves | usb/host/ohci.c:256-331 | a returning third call leaves the new ED as list head and only CLE changed in HcControl; other registers but HcCommandStatus as on entry |
| HcdControl.DummyEdFields | usb/host/ohci.c:266-272 | in-range values land in FA, EN and MPS, S is set, and D, K and F stay clear |
| HcdControl.FilledDecoded | usb/host/ohci.c:240-241 | decoded, a filled TD has its PID's flags, cbp/be on its buffer, and no next TD |
| HcdControl.RunQuirk | usb/host/ohci.c:112-141 | the register part of the quirk; when it returns, HcControl and HcControlHeadED read their entry values |
| HcdControl.QuirkLog | usb/host/ohci.c:112-141 | the writes of control_quirk; QuirkQuietIff, QuirkLoadsDummy and QuirkRestores state them |
| HcdControl.ScheduleLog | usb/host/ohci.c:273-331 | the writes that start the new ED; ScheduleLeaves states what they leave |
| HcdControl.EnqueueLog | usb/host/ohci.c:256-331 | the third call's writes; EnqueueLeaves states what they leave |
| HcdControl.DummyReadyDecoded | usb/host/ohci.c:93-95 | decoded, the quirk's ED is OUT general-format, head = tail = the dummy TD, and has no next ED |
| HcdControl.PointAtDummy | usb/host/ohci.c:93-95 | head and tail point at the dummy TD; direction OUT is ORed into the flags |
| HcdControl.Hcd.constructor | usb/host/ohci.c:71-72 | no dummy ED or TD yet, stage 0 |
| HcdControl.Hcd.ControlQuirk | usb/host/ohci.c:69-141 | builds the dummy ED and TD once, when both allocations succeed, and keeps them; writes and hang as RunQuirk |
| HcdControl.Hcd.AllocateDummy | usb/host/ohci.c:77-96 | the dummy exists exactly when both memaligns return non-null, and is then ready and pointing at its TD |
| HcdControl.Hcd.Enqueue | usb/host/ohci.c:233-346 | the stage cycles 0, 1, 2; stages 0 and 1 stash a filled TD silently; stage 2 runs the quirk and installs the linked ED; returns 0 |
| HcdControl.Hcd.Stash | usb/host/ohci.c:238-255 | stage 0 keeps the setup TD, stage 1 the data TD, and the stage advances |
| HcdControl.Hcd.Complete | usb/host/ohci.c:256-346 | the third call's writes and hang; unless the quirk hangs, a new ED links setup, data and status |
| HcdControl.Hcd.InstallNew | usb/host/ohci.c:266-331 | a new ED at the given address links the stashed TDs and the status TD, and the list is started |
| HcdControl.Hcd.NewFilledTd | usb/host/ohci.c:240-241 | a fresh TD filled from the transfer |
| HcdControl.LinkedDecoded | usb/host/ohci.c:266-278 | decoded, the ED has the transfer's flags and heads the chain setup, data, status |
| HcdControl.BuildEd | usb/host/ohci.c:266-272 | a fresh ED with the transfer's flags and zero pointers |
| HcdControl.LinkTds | usb/host/ohci.c:275-278 | the ED's head points at setup, setup at data, data at status; TD flags untouched |
| HcdControl.Install | usb/host/ohci.c:273-331 | makes the ED the list head, links the TDs and starts the list |
| HcdControl.StartList | usb/host/ohci.c:297-331 | sets CLE, writes ControlListFilled, waits for HcControlCurrentED and clears CLE |
| OhciLegacy.LegacyProgram | ohci.c:74-103 | the nine set-up writes of ohci_init, in source order |
| OhciLegacy.LegacyInit | ohci.c:39-109 | ohci_init's writes; reports whether the reset completed in budget |
| OhciLegacy.LegacyLog | ohci.c:39-109 | the writes of ohci_init; LegacyGivesUp, LegacyCriticalSection and LegacyProgramsController state them |
| OhciLegacy.LegacyGivesUp | ohci.c:55-65 | after a reset timeout only the routing and the reset request were written |
| OhciLegacy.LegacyResetKeepsCommand | ohci.c:52-55 | the reset request ORs HCR into HcCommandStatus and keeps its other bits |
| OhciLegacy.LegacyCriticalSection | ohci.c:67-106 | all writes after the reset lie between one disable and the matching restore, which comes last |
| OhciLegacy.LegacyProgramsController | ohci.c:74-103 | after a completed reset the model's `regs` holds the last values ohci_init wrote |
| OhciLegacy.LegacyPeriodicStartFromInterval | ohci.c:83-88 | rewriting HcFmInterval keeps FI, so HcPeriodicStart is 90% of FI either way |
| OhciLegacy.LegacyFmIntervalOnlySets | ohci.c:83-87 | the OR clears no bit and always leaves FIT set |
| OhciLegacy.LegacyFitNotToggled | ohci.c:83-87 | the register 0x80002EDF is written back unchanged: FIT is not toggled |
| OhciLegacy.LegacyFmInterval | ohci.c:83-87 | HcFmInterval as written: the read value with `fit ^ FIT` ORed in; LegacyFmIntervalOnlySets, LegacyFitNotToggled and LegacyFmIntervalTogglesIff state it |
| OhciLegacy.ToggledFmInterval | ohci.c:82-87 | the corrected value toggles FIT and keeps every other bit |
| OhciLegacy.LegacyFmIntervalTogglesIff | ohci.c:83-87 | the OR gives the corrected value exactly when FIT read clear |
| OhciLegacy.LegacyControlOnlySets | ohci.c:96 | the OR clears no HcControl bit and sets CONTROL_INIT |
| OhciLegacy.LegacyControl | ohci.c:96 | HcControl as written: the read value with CONTROL_INIT and USB_OPER ORed in; LegacyControlOnlySets, LegacyControlOperationalIff and LegacyStaysSuspended state it |
| OhciLegacy.LegacyControlOperationalIff | ohci.c:95-96 | HCFS becomes OPER exactly when the read had the RESUME bit clear; otherwise it becomes SUSPEND |
| OhciLegacy.LegacyStaysSuspended | ohci.c:67-96 | a controller in SUSPEND after the reset stays in SUSPEND |
| OhciLegacy.OperationalControl | ohci.c:95-96 | the corrected value has HCFS = OPER and CBSR = CONTROL_INIT, with other bits kept |
| OhciLegacy.LegacyControlAgreesIff | ohci.c:96 | the OR gives the corrected value exactly when the RESUME bit read clear |
| Dump.AsciiShows | main.c:42-46 | ascii returns a printable character, the byte itself exactly when it is printable (or '.'), and '.' otherwise |
| Dump.Ascii | main.c:42-46 | ascii: '.' for a byte below 0x20 or above 0x7E, the byte otherwise; AsciiShows states it |
| Dump.Hex | main.c:53-56 | "%0wx" prints the low w hex digits of n, which is everything `%02x` of a byte and `%08x` of an offset below 0x7FFF_FFF1 print |
| Dump.HexDigitsOnly | main.c:53-56 | every printed hex character is a lowercase hex digit |
| Dump.HexRoundTrip | main.c:53-56 | reading the printed digits back gives the number, when it fits the width |
| Dump.HexColumn | main.c:54-56 | n hex slots take 3n characters |
| Dump.CharColumn | main.c:59-61 | n character slots take n characters |
| Dump.Line | main.c:53-62 | every line is 76 characters |
| Dump.PrintLine | main.c:53-62 | one pass of the outer loop prints the line for the 16 bytes at off |
| Dump.Hexdump | main.c:48-64 | prints exactly HexdumpText, the lines for offsets 0, 16, ... below len |
| Dump.DumpFromLength | main.c:52-63 | the lines from off take 76 characters each |
| Dump.HexdumpLength | main.c:52-63 | hexdump prints ceil(len/16) lines of 76 characters, and nothing when len <= 0 |
| Dump.LineExists | main.c:52 | line k is printed exactly when 16k < len |
| Dump.DumpFromLine | main.c:52-63 | line k from off is the line at off + 16k |
| Dump.HexdumpLine | main.c:52-63 | line k of the output shows the 16 bytes from 16k |
| Dump.HexColumnSlot | main.c:54-56 | hex slot j sits at column 3j of the hex part |
| Dump.CharColumnSlot | main.c:59-61 | character slot j sits at column j of the character part |
| Dump.LineLayout | main.c:53-62 | a line holds the offset, two spaces, 16 hex slots, a space, 16 character slots and a newline |
| Dump.LineDecodes | main.c:56 | a byte's hex slot reads back as the byte |
| Dump.LineOffsetDecodes | main.c:53 | the offset column reads back as the line's offset |
| Dump.DumpReadsBelowLen | main.c:55-60 | no byte at or past len is read: buffers agreeing below len print the same text |
| Dump.ColumnsReadBelowLen | main.c:54-61 | the same, for the two columns of one line |
| Pad.AbsentCount | main.c:137-157 | ca counts the absent digits among brut1..brut3 and is at most 3 |
| Pad.PadAsWritten | main.c:137-164 | the array after one pass is PaddedAsWritten of the array before |
| Pad.PaddedAsWritten | main.c:137-164 | the 64-byte block one pass leaves as written; PadAsWrittenLayout, PadAsWrittenDigits and PadTailOnlyByCount state its layout |
| Pad.PadAsWrittenLayout | main.c:142-164 | the prefix is kept, brut0 goes to byte 4, 0x80 to byte 8-ca, zeros up to byte 62, and 64-8ca in byte 63 |
| Pad.PadAsWrittenDigits | main.c:144-159 | below the marker, a present digit sits in its own slot and an absent one leaves the previous pass's byte |
| Pad.PadTailOnlyByCount | main.c:159-164 | the marker, zeros and length depend only on how many digits are absent |
| Pad.PadThenMessage | main.c:159-164 | the reference padding (FIPS 180-4 section 5.1.1) of a short message gives that message back |
| Pad.Fips180Pad | main.c:159-164 | the one-block padding of section 5.1.1 of FIPS 180-4, 64 bytes; PadThenMessage states that it gives the message back |
| Pad.Present | main.c:144-157 | the present digits, in order, one per digit not absent |
| Pad.PaddedPacked | main.c:141-164 | the corrected block carries the prefix, brut0 and the present digits as its message |
| Pad.PadPacked | main.c:141-164 | the corrected padding fills the array with PaddedPacked of its prefix |
| Pad.AsWrittenPadsWhenTrailing | main.c:142-164 | when absent digits only trail, the as-written block equals the corrected one |
| Pad.AsWrittenLosesDigit | main.c:149-159 | with brut2 absent between present digits, 0x80 overwrites brut3, byte 6 is stale, and the block differs from the corrected one whenever byte 6 did not already hold brut3 |
| Pad.AsWrittenKeepsStale | main.c:144-152 | with brut1 absent and brut2 present, byte 5 keeps the previous pass's value |

## Left out

- Console output is not modelled: `printf`, `dbg_op_state`, `dbg_td_flag`, `dump_address` and `show_frame_no` only print.
- Delays are not modelled: `udelay` and `wait_ms` take no time in the model, including the wait computed from HcRhDescriptorA.
- Cache maintenance is not modelled: `sync_after_write` and `sync_before_read` have no observable effect in the model.
- Addresses are not computed: `virt_to_phys` and `phys_to_virt` are the identity, and `memalign`/`malloc` results are given addresses (0 for NULL).
- Registers the controller changes (HcCommandStatus during a reset, HcControlCurrentED, port status, HcInterruptStatus/Enable, the interrupt flags, and HcFmInterval/HcControl/HcRhStatus after a reset) are given replies, not a model of the controller. A busy-wait that no reply ends is "stuck" rather than a non-terminating loop.
- The controller's own DMA processing of the lists and the HCCA is not modelled. Neither is an interrupt arriving in the middle of a routine.
- The WritebackDoneHead and UnrecoverableError branches of `hcdi_irq` only print. They leave nothing in the trace.
- Freeing is not modelled: descriptor and buffer freeing is compiled out in the source, and `control_quirk`'s `free(ed)` after a failed TD allocation only drops the ED in the model.
- `hcdi_dequeue` is not modelled, because it only returns 0.
- The `usb_transfer_descriptor` fields that `hcdi_enqueue` does not read are not modelled.
- `usb/host/ohci.h` is not part of this model. The ED/TD flag constants, the descriptor layouts and the port-status register offsets follow the Open Host Controller Interface Specification, Release 1.0a (sections 4.2.1, 4.3.1.2 and 7.4.4).
- `hollywood.h` is not part of this model. Its register addresses and `IRQF_*` bits are a parameter record (`Irq.Layout`) with the distinctness facts the handler's logic needs.
- The timer branch of `irq_handler` is modelled as stopping the handler. Its reads of HW_TIMER and its wait on BW_PI_IRQFLAG only precede `while(1)`.
- The sanity print on FmInterval/PeriodicStart in `hcdi_init` and `ohci_init` only prints. Its reads are not modelled.
- The rest of `main.c` (the boot flow, the brute-force loop's hashing, `sha_decrypt`, `strlcpy` and the other debug routines) and `crypto.c` are not part of this model. Only the padding block of one loop pass is.
- HcdPorts.ConfigureWrites, HcdInit.ScanKeeps, HcdInit.InitProgramsController, HcdIrq.IrqWrites: the hand-off to `usb_add_device` (usb/host/ohci.c:470) is an event that writes no register. The USB core behind it is not part of this model. It probes the new device with a control transfer, whose third `hcdi_enqueue` call writes HcControlHeadED (usb/host/ohci.c:273, not restored), HcControl (298, 331) and HcCommandStatus (299). These facts therefore cover the driver's own writes, and describe the whole program only in runs where no device is added.
- HcdInit.RequestReset: the `set32` on HcInterruptDisable reads `regs`, the last value written there, not the current interrupt enables the hardware returns. No lemma depends on the value read.
- Descriptors.AllocateEndpoint, Descriptors.AllocateGeneralTd, HcdControl.Hcd.Enqueue: the source stores into the descriptor through the `memalign` result before any NULL test (usb/host/ohci.c:43-44 and 52-56; `control_quirk` tests `!ed` at usb/host/ohci.c:83 only after those stores, and `hcdi_enqueue` never tests). A store through NULL is undefined behaviour in C, so the allocators return null without writing, and Enqueue requires non-NULL descriptor addresses.
- Dump.Hexdump: requires `len < 0x7FFF_FFF1`, because `off += 16` on the C `int` would overflow past the last line for larger lengths.
- Dump.Ascii: takes the byte as unsigned. With a signed `char` the bytes 0x80-0xFF are below 0x20 and print '.', which is also what the unsigned comparison gives.

## Findings

| source | as written | input that shows it | evidently intended | confidence | as-written member | corrected member |
|---|---|---|---|---|---|---|
| ohci.c:96 | `set32(HcControl, CONTROL_INIT \| USB_OPER)` ORs into the read value, so an HCFS field that reads SUSPEND (0xC0) stays SUSPEND | HcControl reads 0xC0 after the software reset, which leaves the controller in USBSUSPEND | HCFS replaced by USBOPERATIONAL, as `hcdi_init` does with a plain write (usb/host/ohci.c:416) | not executed | OhciLegacy.LegacyControl, OhciLegacy.LegacyStaysSuspended, OhciLegacy.LegacyControlOperationalIff | OhciLegacy.OperationalControl, OhciLegacy.LegacyControlAgreesIff |
| ohci.c:83-87 | HcFmInterval is written as the read value ORed with `fit ^ FIT`, so FIT is never cleared and is not toggled when it reads set | HcFmInterval reads 0x80002EDF: 0x80002EDF is written back unchanged | FIT toggled, every other bit kept | not executed | OhciLegacy.LegacyFmInterval, OhciLegacy.LegacyFitNotToggled | OhciLegacy.ToggledFmInterval, OhciLegacy.LegacyFmIntervalTogglesIff |
| main.c:142-164 | each present digit goes to its fixed slot 5-7, and the marker goes to 8 - ca | brut1 present, brut2 = '0'-1, brut3 present: byte 6 keeps the previous pass's value, 0x80 overwrites brut3 in byte 7, and the length says 56 bits | present digits packed after brut0, then 0x80, zeros and the bit length (FIPS 180-4 section 5.1.1) | not executed | Pad.PadAsWritten, Pad.AsWrittenLosesDigit, Pad.AsWrittenKeepsStale | Pad.PadPacked, Pad.PaddedPacked, Pad.AsWrittenPadsWhenTrailing |
