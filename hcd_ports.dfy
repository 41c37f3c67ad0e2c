/** Root-hub port enumeration of the OHCI0 host controller (setup_port and
    configure_ports in usb/host/ohci.c). A port is driven by write-1 commands
    to its HcRhPortStatus register (section 7.4.4 of the Open Host Controller
    Interface Specification, Release 1.0a); what the register reads back is
    set by the hardware, so every read is a given reply. */
module HcdPorts {
  import opened Mmio
  import opened OhciRegs

  const PORT1: Addr := Ohci0(RhPortStatus1)
  const PORT2: Addr := Ohci0(RhPortStatus2)

  /** What the hardware answers while one port is set up: the status read
      first, the status read after PES is written, and the successive reads of
      the spin that waits for PRSC. */
  datatype PortReplies = PortReplies(status: bv32, afterEnable: bv32, resetPoll: seq<bv32>)

  /** How setup_port ends: it leaves the port alone, gives up because the port
      did not enable, spins forever waiting for the reset to complete, or hands
      the device to the USB core. */
  datatype PortOutcome = Untouched | NotEnabled | Stuck | Added

  /** The guard of setup_port: a device is connected, and its connection
      changed or the call comes from initialisation. */
  predicate Wanted(status: bv32, fromInit: bool)
  {
    AnySet(status, RH_PS_CCS) && (AnySet(status, RH_PS_CSC) || fromInit)
  }

  function Outcome(fromInit: bool, r: PortReplies): PortOutcome
  {
    if !Wanted(r.status, fromInit) then Untouched
    else if !AnySet(r.afterEnable, RH_PS_PES) then NotEnabled
    else if FirstSet(r.resetPoll, RH_PS_PRSC) < 0 then Stuck
    else Added
  }

  /** The trace `t` followed by what setup_port does to port register `reg`. */
  function PortLog(reg: Addr, fromInit: bool, r: PortReplies, t: seq<Event>): seq<Event>
  {
    if !Wanted(r.status, fromInit) then t
    else
      var enabling := t + [Write(reg, RH_PS_CSC)] + [Write(reg, RH_PS_PES)];
      if !AnySet(r.afterEnable, RH_PS_PES) then enabling
      else
        var resetting := enabling + [Write(reg, RH_PS_PRS)];
        if FirstSet(r.resetPoll, RH_PS_PRSC) < 0 then resetting
        else resetting + [UsbAddDevice(reg)]
  }

  /** setup_port. The waits of 120 and 20 ms are left out. */
  method SetupPort(hw: Bus, reg: Addr, fromInit: bool, r: PortReplies) returns (outcome: PortOutcome)
    requires hw.Valid()
    modifies hw
    ensures hw.Valid() && hw.ee == old(hw.ee)
    ensures hw.trace == PortLog(reg, fromInit, r, old(hw.trace))
    ensures outcome == Outcome(fromInit, r)
  {
    var port := r.status;
    if !Wanted(port, fromInit) {
      return Untouched;
    }
    hw.Write32(reg, RH_PS_CSC);
    hw.Write32(reg, RH_PS_PES);
    if !AnySet(r.afterEnable, RH_PS_PES) {
      return NotEnabled;
    }
    hw.Write32(reg, RH_PS_PRS);
    var k := Spin(r.resetPoll, RH_PS_PRSC);
    if k < 0 {
      return Stuck;
    }
    hw.Emit(UsbAddDevice(reg));
    outcome := Added;
  }

  /** The fixed order of setup_port's steps on one port. */
  function PortSteps(reg: Addr): seq<Event>
  {
    [Write(reg, RH_PS_CSC), Write(reg, RH_PS_PES), Write(reg, RH_PS_PRS), UsbAddDevice(reg)]
  }

  /** How many of those steps a call gets through. */
  function StepsTaken(o: PortOutcome): nat
  {
    match o
    case Untouched => 0
    case NotEnabled => 2
    case Stuck => 3
    case Added => 4
  }

  /** setup_port only ever performs a prefix of clear-CSC, set-PES, set-PRS,
      add-device, on its own register: it stops after PES when the port did
      not enable and after PRS when the reset never completes. */
  lemma PortFollowsSteps(reg: Addr, fromInit: bool, r: PortReplies, t: seq<Event>)
    ensures Extends(PortLog(reg, fromInit, r, t), t)
    ensures PortLog(reg, fromInit, r, t)[|t|..] == PortSteps(reg)[..StepsTaken(Outcome(fromInit, r))]
  {
    var steps := PortSteps(reg);
    match Outcome(fromInit, r)
    case Untouched =>
    case NotEnabled =>
      assert PortLog(reg, fromInit, r, t) == t + steps[..2];
    case Stuck =>
      assert PortLog(reg, fromInit, r, t) == t + steps[..3];
    case Added =>
      assert PortLog(reg, fromInit, r, t) == t + steps[..4];
  }

  /** setup_port touches the port exactly when a device is connected and its
      connection changed or the call comes from initialisation; a port without
      CCS is never written. */
  lemma PortActsIffWanted(reg: Addr, fromInit: bool, r: PortReplies, t: seq<Event>)
    ensures PortLog(reg, fromInit, r, t) != t <==> AnySet(r.status, RH_PS_CCS) && (AnySet(r.status, RH_PS_CSC) || fromInit)
    ensures !AnySet(r.status, RH_PS_CCS) ==> PortLog(reg, fromInit, r, t) == t
  {
    PortFollowsSteps(reg, fromInit, r, t);
    if Wanted(r.status, fromInit) {
      assert |PortLog(reg, fromInit, r, t)| > |t|;
    }
  }

  /** A device is handed to the USB core exactly when the guard holds, PES
      reads back set, and some reply of the spin shows PRSC. */
  lemma PortAddsIff(reg: Addr, fromInit: bool, r: PortReplies, t: seq<Event>)
    ensures UsbAddDevice(reg) in PortLog(reg, fromInit, r, t)[|t|..]
            <==> Wanted(r.status, fromInit) && AnySet(r.afterEnable, RH_PS_PES)
                 && exists k :: 0 <= k < |r.resetPoll| && AnySet(r.resetPoll[k], RH_PS_PRSC)
  {
    PortFollowsSteps(reg, fromInit, r, t);
    var steps := PortSteps(reg);
    assert UsbAddDevice(reg) !in steps[..3];
    var k := FirstSet(r.resetPoll, RH_PS_PRSC);
    if k >= 0 {
      assert AnySet(r.resetPoll[k], RH_PS_PRSC);
      assert steps[..4][3] == UsbAddDevice(reg);
    }
  }

  // ---- both ports -----------------------------------------------------------

  /** configure_ports: port 1, then port 2; when port 1 spins forever, port 2
      is never reached. */
  function ConfigureLog(fromInit: bool, r1: PortReplies, r2: PortReplies, t: seq<Event>): seq<Event>
  {
    var first := PortLog(PORT1, fromInit, r1, t);
    if Outcome(fromInit, r1) == Stuck then first else PortLog(PORT2, fromInit, r2, first)
  }

  /** Whether configure_ports never returns. */
  predicate ConfigureStuck(fromInit: bool, r1: PortReplies, r2: PortReplies)
  {
    Outcome(fromInit, r1) == Stuck || Outcome(fromInit, r2) == Stuck
  }

  /** configure_ports. The status registers it prints are left out. */
  method ConfigurePorts(hw: Bus, fromInit: bool, r1: PortReplies, r2: PortReplies) returns (stuck: bool)
    requires hw.Valid()
    modifies hw
    ensures hw.Valid() && hw.ee == old(hw.ee)
    ensures hw.trace == ConfigureLog(fromInit, r1, r2, old(hw.trace))
    ensures stuck == ConfigureStuck(fromInit, r1, r2)
  {
    var o1 := SetupPort(hw, PORT1, fromInit, r1);
    if o1 == Stuck {
      return true;
    }
    var o2 := SetupPort(hw, PORT2, fromInit, r2);
    stuck := o2 == Stuck;
  }

  /** Whether an event belongs to the enumeration of one of the two ports. */
  predicate PortEvent(e: Event)
  {
    (e.Write? && (e.addr == PORT1 || e.addr == PORT2)) || e == UsbAddDevice(PORT1) || e == UsbAddDevice(PORT2)
  }

  /** configure_ports writes only the two port registers, port 1 strictly
      before port 2, and leaves port 2 alone when port 1 never finishes. */
  lemma ConfigureWrites(fromInit: bool, r1: PortReplies, r2: PortReplies, t: seq<Event>)
    ensures var r := ConfigureLog(fromInit, r1, r2, t);
            var first := PortLog(PORT1, fromInit, r1, t);
            && Extends(r, first) && Extends(first, t)
            && first[|t|..] == PortSteps(PORT1)[..StepsTaken(Outcome(fromInit, r1))]
            && r[|first|..] == (if Outcome(fromInit, r1) == Stuck then []
                                else PortSteps(PORT2)[..StepsTaken(Outcome(fromInit, r2))])
            && forall e :: e in r[|t|..] ==> PortEvent(e)
  {
    var r := ConfigureLog(fromInit, r1, r2, t);
    var first := PortLog(PORT1, fromInit, r1, t);
    PortFollowsSteps(PORT1, fromInit, r1, t);
    if Outcome(fromInit, r1) != Stuck {
      PortFollowsSteps(PORT2, fromInit, r2, first);
    }
    AddedSplit(r, first, t);
    forall e | e in r[|t|..]
      ensures PortEvent(e)
    {
      assert e in PortSteps(PORT1) || e in PortSteps(PORT2);
    }
  }
}
