/** The register map and bit layouts of the two OHCI host controllers
    (ohci.h), with the descriptor field encodings of sections 4.2.1 and
    4.3.1.2 of the Open Host Controller Interface Specification, Release 1.0a. */
module OhciRegs {
  import opened Mmio

  // ---- register map -------------------------------------------------------

  const OHCI0_REG_BASE: Addr := 0x0d05_0000
  const OHCI1_REG_BASE: Addr := 0x0d06_0000
  const EHCI_REG_BASE: Addr := 0x0d04_0000

  /** The operational registers of one host controller, in address order. */
  datatype Reg =
    | Revision | Control | CommandStatus | InterruptStatus
    | InterruptEnable | InterruptDisable | Hcca | PeriodCurrentEd
    | ControlHeadEd | ControlCurrentEd | BulkHeadEd | BulkCurrentEd
    | DoneHead | FmInterval | FmRemaining | FmNumber
    | PeriodicStart | LsThreshold | RhDescriptorA | RhDescriptorB
    | RhStatus | RhPortStatus1 | RhPortStatus2

  /** Offset of a register from its controller's base. The two root-hub port
      registers follow HcRhStatus as section 7.4.4 places them. */
  function Offset(r: Reg): Addr
  {
    match r
    case Revision => 0x00         case Control => 0x04
    case CommandStatus => 0x08    case InterruptStatus => 0x0C
    case InterruptEnable => 0x10  case InterruptDisable => 0x14
    case Hcca => 0x18             case PeriodCurrentEd => 0x1C
    case ControlHeadEd => 0x20    case ControlCurrentEd => 0x24
    case BulkHeadEd => 0x28       case BulkCurrentEd => 0x2C
    case DoneHead => 0x30         case FmInterval => 0x34
    case FmRemaining => 0x38      case FmNumber => 0x3C
    case PeriodicStart => 0x40    case LsThreshold => 0x44
    case RhDescriptorA => 0x48    case RhDescriptorB => 0x4C
    case RhStatus => 0x50         case RhPortStatus1 => 0x54
    case RhPortStatus2 => 0x58
  }

  function Ohci0(r: Reg): Addr { OHCI0_REG_BASE + Offset(r) }
  function Ohci1(r: Reg): Addr { OHCI1_REG_BASE + Offset(r) }

  /** Each OHCI1 register sits at the offset of its OHCI0 counterpart; the two
      blocks do not overlap. */
  lemma Ohci1MirrorsOhci0(r: Reg)
    ensures Ohci1(r) - OHCI1_REG_BASE == Ohci0(r) - OHCI0_REG_BASE
    ensures OHCI0_REG_BASE <= Ohci0(r) < OHCI1_REG_BASE <= Ohci1(r)
  {
  }

  /** No two registers of a controller share an address. */
  lemma RegistersDistinct(r1: Reg, r2: Reg)
    requires r1 != r2
    ensures Ohci0(r1) != Ohci0(r2)
  {
  }

  const EHCI_CTL: Addr := EHCI_REG_BASE + 0xCC
  const EHCI_CTL_OH0INTE: bv32 := 0x0000_0800   // bit 11
  const EHCI_CTL_OH1INTE: bv32 := 0x0000_1000   // bit 12

  // ---- HcControl ----------------------------------------------------------

  const CTRL_CBSR: bv32 := 0x003
  const CTRL_PLE: bv32 := 0x004
  const CTRL_IE: bv32 := 0x008
  const CTRL_CLE: bv32 := 0x010
  const CTRL_BLE: bv32 := 0x020
  const CTRL_HCFS: bv32 := 0x0C0
  const CTRL_IR: bv32 := 0x100
  const CTRL_RWC: bv32 := 0x200
  const CTRL_RWE: bv32 := 0x400

  /** HostControllerFunctionalState values, already shifted into place. */
  const USB_RESET: bv32 := 0x00
  const USB_RESUME: bv32 := 0x40
  const USB_OPER: bv32 := 0x80
  const USB_SUSPEND: bv32 := 0xC0

  const CONTROL_INIT: bv32 := 0x3

  /** The four functional states are distinct and live inside the HCFS field. */
  lemma HcfsEncodings()
    ensures USB_RESET != USB_RESUME && USB_RESET != USB_OPER && USB_RESET != USB_SUSPEND
    ensures USB_RESUME != USB_OPER && USB_RESUME != USB_SUSPEND && USB_OPER != USB_SUSPEND
    ensures USB_RESET & !CTRL_HCFS == 0 && USB_RESUME & !CTRL_HCFS == 0
    ensures USB_OPER & !CTRL_HCFS == 0 && USB_SUSPEND & !CTRL_HCFS == 0
  {
  }

  // ---- HcCommandStatus ----------------------------------------------------

  const HCR: bv32 := 0x1
  const CLF: bv32 := 0x2
  const BLF: bv32 := 0x4
  const OCR: bv32 := 0x8
  const SOC: bv32 := 0x3_0000

  // ---- HcInterruptStatus / Enable / Disable ------------------------------

  const INTR_SO: bv32 := 0x0000_0001
  const INTR_WDH: bv32 := 0x0000_0002
  const INTR_SF: bv32 := 0x0000_0004
  const INTR_RD: bv32 := 0x0000_0008
  const INTR_UE: bv32 := 0x0000_0010
  const INTR_FNO: bv32 := 0x0000_0020
  const INTR_RHSC: bv32 := 0x0000_0040
  const INTR_OC: bv32 := 0x4000_0000
  const INTR_MIE: bv32 := 0x8000_0000

  /** The interrupt set enabled at initialisation. */
  const INTR_INIT: bv32 := INTR_MIE | INTR_RHSC | INTR_UE | INTR_RD | INTR_WDH

  lemma IntrInitValue()
    ensures INTR_INIT == 0x8000_005A
    ensures INTR_INIT & (INTR_SO | INTR_SF | INTR_FNO | INTR_OC) == 0
  {
  }

  // ---- root hub -----------------------------------------------------------

  const RH_PS_CCS: bv32 := 0x0000_0001
  const RH_PS_PES: bv32 := 0x0000_0002
  const RH_PS_PSS: bv32 := 0x0000_0004
  const RH_PS_POCI: bv32 := 0x0000_0008
  const RH_PS_PRS: bv32 := 0x0000_0010
  const RH_PS_PPS: bv32 := 0x0000_0100
  const RH_PS_LSDA: bv32 := 0x0000_0200
  const RH_PS_CSC: bv32 := 0x0001_0000
  const RH_PS_PESC: bv32 := 0x0002_0000
  const RH_PS_PSSC: bv32 := 0x0004_0000
  const RH_PS_OCIC: bv32 := 0x0008_0000
  const RH_PS_PRSC: bv32 := 0x0010_0000

  /** Every port change bit is its status bit moved up by 16. */
  lemma ChangeBitsMirrorStatusBits()
    ensures RH_PS_CSC == RH_PS_CCS << 16 && RH_PS_PESC == RH_PS_PES << 16
    ensures RH_PS_PSSC == RH_PS_PSS << 16 && RH_PS_OCIC == RH_PS_POCI << 16
    ensures RH_PS_PRSC == RH_PS_PRS << 16
  {
  }

  const RH_HS_LPS: bv32 := 0x0000_0001
  const RH_HS_OCI: bv32 := 0x0000_0002
  const RH_HS_DRWE: bv32 := 0x0000_8000
  const RH_HS_LPSC: bv32 := 0x0001_0000
  const RH_HS_OCIC: bv32 := 0x0002_0000
  const RH_HS_CRWE: bv32 := 0x8000_0000

  /** HcFmInterval's FrameIntervalToggle. */
  const FIT: bv32 := 0x8000_0000

  // ---- HCCA ---------------------------------------------------------------

  /** A member of a C struct: `count` elements of `width` bytes. */
  datatype Field = Field(name: string, count: nat, width: nat)

  /** struct ohci_hcca, member by member. */
  const HCCA_FIELDS: seq<Field> := [
    Field("int_table", 32, 4), Field("frame_no", 1, 4), Field("done_head", 1, 4),
    Field("reserved_for_hc", 116, 1), Field("what", 4, 1)]

  function SizeOf(fs: seq<Field>): nat
  {
    if fs == [] then 0 else fs[0].count * fs[0].width + SizeOf(fs[1..])
  }

  /** Byte offset of the first member called `name` (the size when there is none). */
  function OffsetOf(fs: seq<Field>, name: string): (off: nat)
    ensures off <= SizeOf(fs)
  {
    if fs == [] || fs[0].name == name then 0
    else fs[0].count * fs[0].width + OffsetOf(fs[1..], name)
  }

  /** The HCCA is 256 bytes, with the frame number at 0x80 and the done head
      at 0x84, where section 4.4.1 of the Open Host Controller Interface
      Specification, Release 1.0a, places them. */
  lemma HccaLayout()
    ensures SizeOf(HCCA_FIELDS) == 256
    ensures OffsetOf(HCCA_FIELDS, "frame_no") == 0x80
    ensures OffsetOf(HCCA_FIELDS, "done_head") == 0x84
  {
    assert HCCA_FIELDS[1..][1..][1..][1..][1..] == [];
  }

  // ---- endpoint and transfer descriptor fields -----------------------------

  const ED_GENERAL_FORMAT: bv32 := 0x0000_0000
  const ED_DIRECTION_OUT: bv32 := 0x0000_0800
  const ED_DIRECTION_IN: bv32 := 0x0000_1000
  const ED_LOW_SPEED: bv32 := 0x0000_2000
  const ED_SKIP: bv32 := 0x0000_4000

  /** The ED field setters are unmasked shifts. */
  function EdDeviceAddress(a: bv32): bv32 { a }
  function EdEndpointNumber(n: bv32): bv32 { n << 7 }
  function EdMaxPacketSize(m: bv32): bv32 { m << 16 }

  /** Low bits of a descriptor pointer that carry control bits, not address. */
  const ED_MASK: bv32 := 0xFFFF_FFF0

  const TD_BUFFER_ROUNDING: bv32 := 0x0004_0000       // R, bit 18
  const TD_PID_MASK: bv32 := 0x0018_0000              // DP, bits 19-20
  const TD_PID_SETUP: bv32 := 0x0000_0000
  const TD_PID_OUT: bv32 := 0x0008_0000
  const TD_PID_IN: bv32 := 0x0010_0000
  const TD_DELAY_INTERRUPT_MASK: bv32 := 0x00E0_0000  // DI, bits 21-23
  const TD_TOGGLE_MASK: bv32 := 0x0300_0000           // T, bits 24-25
  const TD_TOGGLE_CARRY: bv32 := 0x0000_0000
  const TD_TOGGLE_0: bv32 := 0x0200_0000
  const TD_TOGGLE_1: bv32 := 0x0300_0000

  function TdDelayInterrupt(frames: bv32): bv32 { frames << 21 }
}
