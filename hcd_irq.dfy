/** The OHCI0 interrupt service routine (hcdi_irq in usb/host/ohci.c):
    which HcInterruptStatus bits it acknowledges, by writing them back
    (sections 7.1.4 and 7.1.5 of the Open Host Controller Interface
    Specification, Release 1.0a). HcInterruptStatus and HcInterruptEnable are
    changed by the hardware and by write-1 semantics, so what they read is
    given. */
module HcdIrq {
  import opened Mmio
  import opened OhciRegs
  import opened HcdPorts

  const INT_STATUS: Addr := Ohci0(InterruptStatus)
  const INT_ENABLE: Addr := Ohci0(InterruptEnable)

  /** What the hardware answers during one call: HcInterruptStatus,
      HcInterruptEnable, and the replies of the two ports should the root hub
      be rescanned. */
  datatype IrqReplies = IrqReplies(status: bv32, enabled: bv32, port1: PortReplies, port2: PortReplies)

  /** The pending interrupts the routine cares about. */
  function Flags(rp: IrqReplies): bv32
  {
    Masked(rp.status, rp.enabled)
  }

  /** The routine returns at once: the status reads all ones (the controller
      is gone), or nothing enabled is pending. */
  predicate Ignored(rp: IrqReplies)
  {
    rp.status == 0xFFFF_FFFF || Flags(rp) == 0
  }

  /** The routine never returns: the root-hub rescan spins forever. */
  predicate IrqStuck(rp: IrqReplies)
  {
    !Ignored(rp) && AnySet(Flags(rp), INTR_RHSC) && ConfigureStuck(false, rp.port1, rp.port2)
  }

  /** The trace `t` followed by the RootHubStatusChange / ResumeDetected
      branch for pending `flags`. */
  function RootHubLog(flags: bv32, rp: IrqReplies, t: seq<Event>): seq<Event>
  {
    if AnySet(flags, INTR_RHSC) then
      var rescan := ConfigureLog(false, rp.port1, rp.port2, t);
      if ConfigureStuck(false, rp.port1, rp.port2) then rescan
      else rescan + [Write(INT_STATUS, INTR_RD | INTR_RHSC)]
    else if AnySet(flags, INTR_RD) then t + [Write(INT_STATUS, INTR_RD)]
    else t
  }

  /** The trace `t` followed by what hcdi_irq does. */
  function IrqLog(rp: IrqReplies, t: seq<Event>): seq<Event>
  {
    if Ignored(rp) then t
    else
      var handled := RootHubLog(Flags(rp), rp, t);
      if IrqStuck(rp) then handled
      else handled + [Write(INT_STATUS, Flags(rp))] + [Write(INT_ENABLE, INTR_MIE)]
  }

  /** hcdi_irq. The UnrecoverableError and WritebackDoneHead branches only
      print, so they leave nothing in the trace. */
  method Irq(hw: Bus, rp: IrqReplies) returns (stuck: bool)
    requires hw.Valid()
    modifies hw
    ensures hw.Valid() && hw.ee == old(hw.ee)
    ensures hw.trace == IrqLog(rp, old(hw.trace))
    ensures stuck == IrqStuck(rp)
  {
    var flags := rp.status;
    if flags == 0xFFFF_FFFF {
      return false;
    }
    flags := Masked(flags, rp.enabled);
    if flags == 0 {
      return false;
    }
    stuck := false;
    if AnySet(flags, INTR_RHSC) {
      stuck := ConfigurePorts(hw, false, rp.port1, rp.port2);
      if stuck {
        return;
      }
      hw.Write32(INT_STATUS, INTR_RD | INTR_RHSC);
    } else if AnySet(flags, INTR_RD) {
      hw.Write32(INT_STATUS, INTR_RD);
    }
    hw.Write32(INT_STATUS, flags);
    hw.Write32(INT_ENABLE, INTR_MIE);
  }

  /** The acknowledgements of the root-hub branch: RD|RHSC after a rescan,
      else RD alone when a resume was detected. */
  function BranchAcks(flags: bv32): seq<bv32>
  {
    if AnySet(flags, INTR_RHSC) then [INTR_RD | INTR_RHSC]
    else if AnySet(flags, INTR_RD) then [INTR_RD]
    else []
  }

  /** Whether an event is one hcdi_irq may cause. */
  predicate IrqEvent(e: Event)
  {
    PortEvent(e) || (e.Write? && (e.addr == INT_STATUS || e.addr == INT_ENABLE))
  }

  lemma PortEventsMissStatus(es: seq<Event>)
    requires forall e :: e in es ==> PortEvent(e)
    ensures ValuesWritten(INT_STATUS, es) == [] && ValuesWritten(INT_ENABLE, es) == []
  {
    ValuesWrittenNone(INT_STATUS, es);
    ValuesWrittenNone(INT_ENABLE, es);
  }

  /** The root-hub branch causes only events hcdi_irq may cause, and port
      events only for RootHubStatusChange. */
  lemma RootHubLogEvents(flags: bv32, rp: IrqReplies, t: seq<Event>)
    ensures var r := RootHubLog(flags, rp, t);
            && Extends(r, t)
            && (forall e :: e in r[|t|..] ==> IrqEvent(e))
            && (!AnySet(flags, INTR_RHSC) ==> forall e :: e in r[|t|..] ==> !PortEvent(e))
  {
    var r := RootHubLog(flags, rp, t);
    if AnySet(flags, INTR_RHSC) {
      var rescan := ConfigureLog(false, rp.port1, rp.port2, t);
      ConfigureWrites(false, rp.port1, rp.port2, t);
      if !ConfigureStuck(false, rp.port1, rp.port2) {
        AfterRescan(r, rescan, t, Write(INT_STATUS, INTR_RD | INTR_RHSC));
      }
    } else if AnySet(flags, INTR_RD) {
      assert r[|t|..] == [Write(INT_STATUS, INTR_RD)];
    }
  }

  lemma AfterRescan(r: seq<Event>, rescan: seq<Event>, t: seq<Event>, ack: Event)
    requires Extends(rescan, t) && r == rescan + [ack]
    requires forall e :: e in rescan[|t|..] ==> PortEvent(e)
    requires ack.Write? && ack.addr == INT_STATUS
    ensures Extends(r, t) && r[|t|..] == rescan[|t|..] + [ack]
    ensures forall e :: e in r[|t|..] ==> IrqEvent(e)
  {
    assert r[|t|..] == rescan[|t|..] + [ack];
  }

  /** The root-hub branch rescans the ports only for RootHubStatusChange and
      writes HcInterruptStatus with the branch's acknowledgement. */
  lemma RootHubLogAdds(flags: bv32, rp: IrqReplies, t: seq<Event>)
    ensures var r := RootHubLog(flags, rp, t);
            && Extends(r, t)
            && (forall e :: e in r[|t|..] ==> IrqEvent(e))
            && (!AnySet(flags, INTR_RHSC) ==> forall e :: e in r[|t|..] ==> !PortEvent(e))
            && ValuesWritten(INT_ENABLE, r[|t|..]) == []
            && ValuesWritten(INT_STATUS, r[|t|..])
               == if AnySet(flags, INTR_RHSC) && ConfigureStuck(false, rp.port1, rp.port2) then [] else BranchAcks(flags)
  {
    RootHubLogEvents(flags, rp, t);
    var r := RootHubLog(flags, rp, t);
    if AnySet(flags, INTR_RHSC) {
      var rescan := ConfigureLog(false, rp.port1, rp.port2, t);
      ConfigureWrites(false, rp.port1, rp.port2, t);
      PortEventsMissStatus(rescan[|t|..]);
      if !ConfigureStuck(false, rp.port1, rp.port2) {
        var ack := [Write(INT_STATUS, INTR_RD | INTR_RHSC)];
        AfterRescan(r, rescan, t, ack[0]);
        ValuesWrittenAppend(INT_STATUS, rescan[|t|..], ack);
        ValuesWrittenAppend(INT_ENABLE, rescan[|t|..], ack);
      }
    } else if AnySet(flags, INTR_RD) {
      assert r[|t|..] == [Write(INT_STATUS, INTR_RD)];
    }
  }

  /** hcdi_irq leaves no trace exactly when the status reads all ones or
      nothing enabled is pending. */
  lemma IrqQuietIff(rp: IrqReplies, t: seq<Event>)
    ensures IrqLog(rp, t) == t <==> rp.status == 0xFFFF_FFFF || Masked(rp.status, rp.enabled) == 0
  {
    if !Ignored(rp) {
      var handled := RootHubLog(Flags(rp), rp, t);
      RootHubLogAdds(Flags(rp), rp, t);
      if IrqStuck(rp) {
        var first := PortLog(PORT1, false, rp.port1, t);
        ConfigureWrites(false, rp.port1, rp.port2, t);
        PortFollowsSteps(PORT1, false, rp.port1, t);
        if Outcome(false, rp.port1) != Stuck {
          PortFollowsSteps(PORT2, false, rp.port2, first);
        }
        assert |handled| > |t|;
      } else {
        assert |IrqLog(rp, t)| > |t|;
      }
    }
  }

  /** The two writes that end a serviced call. */
  lemma IrqTail(rp: IrqReplies, t: seq<Event>)
    requires !Ignored(rp) && !IrqStuck(rp)
    ensures var handled := RootHubLog(Flags(rp), rp, t);
            && Extends(handled, t)
            && IrqLog(rp, t)[|t|..] == handled[|t|..] + [Write(INT_STATUS, Flags(rp))] + [Write(INT_ENABLE, INTR_MIE)]
  {
    RootHubLogAdds(Flags(rp), rp, t);
  }

  /** When it returns after servicing, hcdi_irq has written HcInterruptStatus
      with the root-hub branch's acknowledgement and then with exactly the
      pending enabled flags. */
  lemma IrqAcks(rp: IrqReplies, t: seq<Event>)
    requires !Ignored(rp) && !IrqStuck(rp)
    ensures Extends(IrqLog(rp, t), t)
    ensures ValuesWritten(INT_STATUS, IrqLog(rp, t)[|t|..]) == BranchAcks(Flags(rp)) + [Flags(rp)]
  {
    var handled := RootHubLog(Flags(rp), rp, t);
    RootHubLogAdds(Flags(rp), rp, t);
    IrqTail(rp, t);
    var added := handled[|t|..];
    var ack := Write(INT_STATUS, Flags(rp));
    ValuesWrittenSnoc(INT_STATUS, added + [ack], Write(INT_ENABLE, INTR_MIE));
    ValuesWrittenSnoc(INT_STATUS, added, ack);
  }

  /** ... and has written HcInterruptEnable once, last, with MIE alone. */
  lemma IrqEnablesLast(rp: IrqReplies, t: seq<Event>)
    requires !Ignored(rp) && !IrqStuck(rp)
    ensures var r := IrqLog(rp, t);
            && |r| > |t|
            && ValuesWritten(INT_ENABLE, r[|t|..]) == [INTR_MIE]
            && r[|r| - 1] == Write(INT_ENABLE, INTR_MIE)
  {
    var handled := RootHubLog(Flags(rp), rp, t);
    RootHubLogAdds(Flags(rp), rp, t);
    IrqTail(rp, t);
    var added := handled[|t|..];
    var ack := Write(INT_STATUS, Flags(rp));
    ValuesWrittenSnoc(INT_ENABLE, added + [ack], Write(INT_ENABLE, INTR_MIE));
    ValuesWrittenSnoc(INT_ENABLE, added, ack);
  }

  /** hcdi_irq touches only HcInterruptStatus, HcInterruptEnable and the two
      ports, and the ports only when RootHubStatusChange is pending and
      enabled. */
  lemma IrqWrites(rp: IrqReplies, t: seq<Event>)
    ensures var r := IrqLog(rp, t);
            && Extends(r, t)
            && (forall e :: e in r[|t|..] ==> IrqEvent(e))
            && (Ignored(rp) || !AnySet(Flags(rp), INTR_RHSC) ==> forall e :: e in r[|t|..] ==> !PortEvent(e))
  {
    if !Ignored(rp) {
      var handled := RootHubLog(Flags(rp), rp, t);
      RootHubLogEvents(Flags(rp), rp, t);
      if !IrqStuck(rp) {
        var r := IrqLog(rp, t);
        var tail := [Write(INT_STATUS, Flags(rp)), Write(INT_ENABLE, INTR_MIE)];
        assert r == handled + tail;
        TailJoin(r, handled, t, tail);
      }
    }
  }

  lemma TailJoin(r: seq<Event>, handled: seq<Event>, t: seq<Event>, tail: seq<Event>)
    requires Extends(handled, t) && r == handled + tail
    requires forall e :: e in tail ==> IrqEvent(e) && !PortEvent(e)
    ensures Extends(r, t) && r[|t|..] == handled[|t|..] + tail
  {
    assert r[|t|..] == handled[|t|..] + tail;
  }
}
