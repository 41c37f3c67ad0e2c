/** The control-transfer path of the OHCI0 driver (control_quirk and
    hcdi_enqueue in usb/host/ohci.c). Both keep static state between calls:
    the erratum workaround's dummy ED and TD, and the enqueue's stage counter
    with the stashed setup and data TDs. That state is the class `Hcd`.
    HcControlCurrentED is changed by the controller, so its reads are given. */
module HcdControl {
  import opened Bits
  import opened Mmio
  import opened OhciRegs
  import opened Descriptors

  const CTRL_HEAD: Addr := Ohci0(ControlHeadEd)
  const CONTROL: Addr := Ohci0(Control)
  const COMMAND: Addr := Ohci0(CommandStatus)

  /** The spins wait for HcControlCurrentED to read anything but zero. */
  const ANY: bv32 := 0xFFFF_FFFF

  /** The trace `t` followed by the three writes that start the control
      list on the ED at `ed`: it becomes the list head, CLE is set in the
      HcControl value `ctrl`, and ControlListFilled is written. */
  function TriggerLog(ed: bv32, ctrl: bv32, t: seq<Event>): seq<Event>
  {
    t + [Write(CTRL_HEAD, ed)] + [Write(CONTROL, SetBits(ctrl, CTRL_CLE))] + [Write(COMMAND, CLF)]
  }

  // ---- control_quirk --------------------------------------------------------

  /** What the environment answers during one control_quirk: memalign's
      results for the dummy ED and TD (0 for NULL), and the successive reads
      of HcControlCurrentED. */
  datatype QuirkReplies = QuirkReplies(edAt: bv32, tdAt: bv32, currentPoll: seq<bv32>)

  /** control_quirk touches the controller only when its dummy ED exists and
      the control list is not empty. */
  predicate QuirkActs(ready: bool, head: bv32)
  {
    ready && head != 0
  }

  /** ... and then spins forever if HcControlCurrentED never reads non-zero. */
  predicate QuirkStuck(ready: bool, head: bv32, poll: seq<bv32>)
  {
    QuirkActs(ready, head) && FirstSet(poll, ANY) < 0
  }

  /** The trace `t` followed by what control_quirk writes: `ready` says
      whether the dummy ED exists once the allocation step is over, `ed` is
      its address, `head` and `status` are HcControlHeadED and HcControl as
      read on entry. */
  function QuirkLog(ready: bool, ed: bv32, head: bv32, status: bv32, poll: seq<bv32>, t: seq<Event>): seq<Event>
  {
    if !QuirkActs(ready, head) then t
    else
      var started := TriggerLog(ed, status, t);
      if FirstSet(poll, ANY) < 0 then started
      else started + [Write(CONTROL, status)] + [Write(CTRL_HEAD, head)]
  }

  /** The writes of a control_quirk that runs to the end. */
  function QuirkBlock(ed: bv32, head: bv32, status: bv32): seq<Event>
  {
    [Write(CTRL_HEAD, ed), Write(CONTROL, SetBits(status, CTRL_CLE)), Write(COMMAND, CLF),
     Write(CONTROL, status), Write(CTRL_HEAD, head)]
  }

  lemma QuirkLogSplit(ready: bool, ed: bv32, head: bv32, status: bv32, poll: seq<bv32>, t: seq<Event>)
    requires QuirkActs(ready, head) && !QuirkStuck(ready, head, poll)
    ensures QuirkLog(ready, ed, head, status, poll, t) == t + QuirkBlock(ed, head, status)
  {
  }

  /** control_quirk writes no register exactly when it has no dummy ED or
      HcControlHeadED reads 0. */
  lemma QuirkQuietIff(ready: bool, ed: bv32, head: bv32, status: bv32, poll: seq<bv32>, t: seq<Event>)
    ensures QuirkLog(ready, ed, head, status, poll, t) == t <==> !ready || head == 0
  {
    if QuirkActs(ready, head) {
      assert |QuirkLog(ready, ed, head, status, poll, t)| >= |t| + 3;
    }
  }

  /** When ControlListFilled is written, the control list holds the dummy ED
      alone and CLE is set. */
  lemma QuirkLoadsDummy(m: map<Addr, bv32>, ready: bool, ed: bv32, head: bv32, status: bv32, poll: seq<bv32>, t: seq<Event>)
    requires QuirkActs(ready, head)
    ensures var added := QuirkLog(ready, ed, head, status, poll, t)[|t|..];
            && |added| >= 3 && added[2] == Write(COMMAND, CLF)
            && Peek(Replay(m, added[..2]), CTRL_HEAD) == ed
            && AnySet(Peek(Replay(m, added[..2]), CONTROL), CTRL_CLE)
  {
    var added := QuirkLog(ready, ed, head, status, poll, t)[|t|..];
    var start := added[..2];
    assert start == [Write(CTRL_HEAD, ed), Write(CONTROL, SetBits(status, CTRL_CLE))];
    ReplayLastWrite(m, start, 0, CTRL_HEAD);
    ReplayLastWrite(m, start, 1, CONTROL);
  }

  /** A control_quirk that returns leaves every register but
      HcCommandStatus as it found it; in particular HcControl and
      HcControlHeadED get their entry values back. */
  lemma QuirkRestores(m: map<Addr, bv32>, ready: bool, ed: bv32, poll: seq<bv32>, t: seq<Event>)
    requires !QuirkStuck(ready, Peek(m, CTRL_HEAD), poll)
    ensures var added := QuirkLog(ready, ed, Peek(m, CTRL_HEAD), Peek(m, CONTROL), poll, t)[|t|..];
            forall a :: a != COMMAND ==> Peek(Replay(m, added), a) == Peek(m, a)
  {
    var head, status := Peek(m, CTRL_HEAD), Peek(m, CONTROL);
    var added := QuirkLog(ready, ed, head, status, poll, t)[|t|..];
    if QuirkActs(ready, head) {
      QuirkLogSplit(ready, ed, head, status, poll, t);
      var b := QuirkBlock(ed, head, status);
      assert added == b;
      forall a | a != COMMAND
        ensures Peek(Replay(m, added), a) == Peek(m, a)
      {
        if a == CTRL_HEAD {
          ReplayLastWrite(m, b, 4, a);
        } else if a == CONTROL {
          ReplayLastWrite(m, b, 3, a);
        } else {
          ReplayUntouched(m, b, a);
        }
      }
    } else {
      assert added == [];
    }
  }

  // ---- the third stage of hcdi_enqueue ---------------------------------------

  /** What the environment answers during the third call of hcdi_enqueue:
      the quirk's replies, memalign's result for the endpoint descriptor that
      is put on the list, and the reads of HcControlCurrentED. */
  datatype EnqueueReplies = EnqueueReplies(quirk: QuirkReplies, edAt: bv32, listPoll: seq<bv32>)

  /** The trace `t` followed by what the third call writes after the quirk:
      the new ED is started as in the quirk, and once the controller has
      picked it up CLE is cleared with a read-modify-write. */
  function ScheduleLog(ed: bv32, ctrl: bv32, poll: seq<bv32>, t: seq<Event>): seq<Event>
  {
    var started := TriggerLog(ed, ctrl, t);
    if FirstSet(poll, ANY) < 0 then started
    else started + [Write(CONTROL, ClearBits(SetBits(ctrl, CTRL_CLE), CTRL_CLE))]
  }

  /** Whether the third call never returns. */
  predicate EnqueueStuck(ready: bool, head: bv32, rp: EnqueueReplies)
  {
    QuirkStuck(ready, head, rp.quirk.currentPoll) || FirstSet(rp.listPoll, ANY) < 0
  }

  /** The trace `t` followed by the third call's writes: the quirk, then
      the schedule with HcControl as found on entry (the quirk restores it). */
  function EnqueueLog(ready: bool, q: bv32, head: bv32, ctrl: bv32, rp: EnqueueReplies, t: seq<Event>): seq<Event>
  {
    var quirked := QuirkLog(ready, q, head, ctrl, rp.quirk.currentPoll, t);
    if QuirkStuck(ready, head, rp.quirk.currentPoll) then quirked
    else ScheduleLog(rp.edAt, ctrl, rp.listPoll, quirked)
  }

  /** A schedule that returns leaves the new ED at the head of the control
      list, HcControl with CLE cleared and every other bit as before, and
      every register but HcCommandStatus otherwise untouched. */
  lemma ScheduleLeaves(m: map<Addr, bv32>, ed: bv32, poll: seq<bv32>, t: seq<Event>)
    requires FirstSet(poll, ANY) >= 0
    ensures var regs := Replay(m, ScheduleLog(ed, Peek(m, CONTROL), poll, t)[|t|..]);
            && Peek(regs, CTRL_HEAD) == ed
            && Peek(regs, CONTROL) == ClearBits(Peek(m, CONTROL), CTRL_CLE)
            && forall a :: a != CTRL_HEAD && a != CONTROL && a != COMMAND ==> Peek(regs, a) == Peek(m, a)
  {
    var ctrl := Peek(m, CONTROL);
    var b := ScheduleLog(ed, ctrl, poll, t)[|t|..];
    assert b == [Write(CTRL_HEAD, ed), Write(CONTROL, SetBits(ctrl, CTRL_CLE)), Write(COMMAND, CLF),
                 Write(CONTROL, ClearBits(SetBits(ctrl, CTRL_CLE), CTRL_CLE))];
    ReplayLastWrite(m, b, 0, CTRL_HEAD);
    ReplayLastWrite(m, b, 3, CONTROL);
    forall a | a != CTRL_HEAD && a != CONTROL && a != COMMAND
      ensures Peek(Replay(m, b), a) == Peek(m, a)
    {
      ReplayUntouched(m, b, a);
    }
  }

  /** A third call that returns ends with the new ED installed as the
      control list head and CLE cleared, every other HcControl bit as on
      entry, and every other register but HcCommandStatus as on entry. */
  lemma EnqueueLeaves(m: map<Addr, bv32>, ready: bool, q: bv32, rp: EnqueueReplies, t: seq<Event>)
    requires !EnqueueStuck(ready, Peek(m, CTRL_HEAD), rp)
    ensures var regs := Replay(m, EnqueueLog(ready, q, Peek(m, CTRL_HEAD), Peek(m, CONTROL), rp, t)[|t|..]);
            && Peek(regs, CTRL_HEAD) == rp.edAt
            && Peek(regs, CONTROL) == ClearBits(Peek(m, CONTROL), CTRL_CLE)
            && forall a :: a != CTRL_HEAD && a != CONTROL && a != COMMAND ==> Peek(regs, a) == Peek(m, a)
  {
    var head, ctrl := Peek(m, CTRL_HEAD), Peek(m, CONTROL);
    var quirked := QuirkLog(ready, q, head, ctrl, rp.quirk.currentPoll, t);
    var r := EnqueueLog(ready, q, head, ctrl, rp, t);
    QuirkRestores(m, ready, q, rp.quirk.currentPoll, t);
    var m1 := Replay(m, quirked[|t|..]);
    assert Peek(m1, CONTROL) == ctrl;
    ScheduleLeaves(m1, rp.edAt, rp.listPoll, quirked);
    assert Extends(quirked, t);
    assert r[|t|..] == quirked[|t|..] + r[|quirked|..];
    ReplayAppend(m, quirked[|t|..], r[|quirked|..]);
  }

  /** The flags of the ED the third call installs: general format, low
      speed, and the transfer's device address, endpoint number and maximum
      packet size ORed in unmasked. */
  function DummyEdFlags(src: Transfer): bv32
  {
    ED_GENERAL_FORMAT | ED_LOW_SPEED | EdDeviceAddress(src.devaddress) | EdEndpointNumber(src.endpoint) | EdMaxPacketSize(src.maxp)
  }

  /** With every value inside its field, the ED flags carry the address in
      FA (bits 0-6), the endpoint in EN (bits 7-10) and the packet size in
      MPS (bits 16-26), set S (low speed), and leave D (direction from the
      TD), K (skip) and F (general format) clear (section 4.2.1 of the Open
      Host Controller Interface Specification, Release 1.0a). */
  lemma DummyEdFields(src: Transfer)
    requires src.devaddress < 0x80 && src.endpoint < 0x10 && src.maxp < 0x800
    ensures var f := DummyEdFlags(src);
            && f & 0x7F == src.devaddress
            && (f >> 7) & 0xF == src.endpoint
            && (f >> 16) & 0x7FF == src.maxp
            && AnySet(f, ED_LOW_SPEED)
            && f & (ED_DIRECTION_OUT | ED_DIRECTION_IN) == 0
            && !AnySet(f, ED_SKIP) && f & 0x8000 == 0
            && f & 0xF800_0000 == 0
  {
  }

  /** A TD as general_td_fill leaves a freshly allocated one, in controller
      byte order: at `at`, its buffer holding the transfer's bytes, the flags
      of the transfer's PID, cbp and be delimiting the buffer at `bufAt`, and
      no next TD. */
  ghost predicate Filled(td: Td, src: Transfer, at: bv32, bufAt: U32)
    reads td, td.buffer
    requires |src.data| < 0x1_0000_0000
  {
    && td.phys == at && td.buffer[..] == src.data
    && td.flags == AccessLe(FilledFlags(0, src.pid))
    && td.cbp == AccessLe(Word(TdBuffer(bufAt, |src.data|).0))
    && td.be == AccessLe(Word(TdBuffer(bufAt, |src.data|).1))
    && td.nexttd == AccessLe(0)
  }

  /** Decoded, a filled TD's words are the PID's flags, the buffer's first
      and last byte, and no next TD. */
  lemma FilledDecoded(td: Td, src: Transfer, at: bv32, bufAt: U32)
    requires |src.data| < 0x1_0000_0000 && Filled(td, src, at, bufAt)
    ensures AccessLe(td.flags) == FilledFlags(0, src.pid)
    ensures AccessLe(td.cbp) == Word(TdBuffer(bufAt, |src.data|).0)
    ensures AccessLe(td.be) == Word(TdBuffer(bufAt, |src.data|).1)
    ensures AccessLe(td.nexttd) == 0
  {
    AccessLeInvolutive(FilledFlags(0, src.pid));
    AccessLeInvolutive(Word(TdBuffer(bufAt, |src.data|).0));
    AccessLeInvolutive(Word(TdBuffer(bufAt, |src.data|).1));
    AccessLeInvolutive(0);
  }

  /** The address of the quirk's ED, 0 while there is none. */
  function EdAt(ed: Ed?): bv32
  {
    if ed == null then 0 else ed.phys
  }

  /** The register part of control_quirk, with `ready` whether the dummy ED
      at `ed` exists: if the control list is not empty, start it on the
      dummy ED, wait for the controller to take it up, and put HcControl and
      HcControlHeadED back. */
  method RunQuirk(hw: Bus, ready: bool, ed: bv32, poll: seq<bv32>) returns (stuck: bool)
    requires hw.Valid()
    modifies hw
    ensures hw.Valid() && hw.ee == old(hw.ee)
    ensures hw.trace == QuirkLog(ready, ed, old(hw.Read32(CTRL_HEAD)), old(hw.Read32(CONTROL)), poll, old(hw.trace))
    ensures stuck == QuirkStuck(ready, old(hw.Read32(CTRL_HEAD)), poll)
    ensures !stuck ==> hw.Read32(CTRL_HEAD) == old(hw.Read32(CTRL_HEAD)) && hw.Read32(CONTROL) == old(hw.Read32(CONTROL))
  {
    if !ready {
      return false;
    }
    var head := hw.Read32(CTRL_HEAD);
    if head == 0 {
      return false;
    }
    hw.Write32(CTRL_HEAD, ed);
    var status := hw.Read32(CONTROL);
    hw.Set32(CONTROL, CTRL_CLE);
    hw.Write32(COMMAND, CLF);
    var k := Spin(poll, ANY);
    if k < 0 {
      return true;
    }
    hw.Write32(CONTROL, status);
    hw.Write32(CTRL_HEAD, head);
    stuck := false;
  }

  /** The quirk's ED as control_quirk leaves it, in controller byte order:
      flags GENERAL_FORMAT|DIRECTION_OUT (0x0008_0000 once swapped), head
      equal to tail, so that it holds no transfer, and no next ED. */
  ghost predicate DummyReady(ed: Ed)
    reads ed
  {
    ed.flags == 0x0008_0000 && ed.tailp == ed.headp && ed.nexted == 0
  }

  /** ... with its head on the dummy TD. */
  ghost predicate PointsAt(ed: Ed, td: Td)
    reads ed
  {
    ed.headp == AccessLe(td.phys & ED_MASK)
  }

  /** Decoded, the quirk's ED has flags GENERAL_FORMAT|DIRECTION_OUT, head
      and tail both the dummy TD's address with the low four bits cleared,
      and no next ED. */
  lemma DummyReadyDecoded(ed: Ed, td: Td)
    requires DummyReady(ed) && PointsAt(ed, td)
    ensures AccessLe(ed.flags) == ED_GENERAL_FORMAT | ED_DIRECTION_OUT
    ensures AccessLe(ed.headp) == td.phys & ED_MASK && AccessLe(ed.tailp) == td.phys & ED_MASK
    ensures AccessLe(ed.nexted) == 0
  {
    AccessLeInvolutive(td.phys & ED_MASK);
  }

  /** A TD as allocate_general_td(0) leaves it: no flags, no buffer, no
      next TD. */
  ghost predicate EmptyTd(td: Td)
    reads td
  {
    AccessLe(td.flags) == 0 && AccessLe(td.nexttd) == 0 && AccessLe(td.cbp) == 0 && AccessLe(td.be) == 0
  }

  /** The set-up of control_quirk's ED once both allocations succeeded:
      head and tail on the dummy TD, direction OUT ORed into the flags. */
  method PointAtDummy(ed: Ed, td: Td)
    requires AccessLe(ed.flags) == ED_GENERAL_FORMAT && AccessLe(ed.nexted) == 0
    modifies ed
    ensures DummyReady(ed) && PointsAt(ed, td)
  {
    var link := AccessLe(td.phys & ED_MASK);
    ed.tailp := link;
    ed.headp := link;
    AccessLeInvolutive(ed.flags);
    AccessLeInvolutive(ed.nexted);
    AccessLeBitwise(ED_GENERAL_FORMAT, ED_DIRECTION_OUT);
    ed.flags := ed.flags | AccessLe(ED_DIRECTION_OUT);
  }

  /** The static state of the control path. */
  class Hcd {
    const hw: Bus
    var quirkEd: Ed?      // control_quirk's empty ED
    var quirkTd: Td?      // ... and its dummy TD
    var first: nat        // hcdi_enqueue's stage
    var tSetup: Td?       // the TD stashed by stage 0
    var tData: Td?        // the TD stashed by stage 1
    ghost var installed: Ed?  // the ED the last third call put on the list
    ghost var tStatus: Td?    // the TD the last third call built

    ghost predicate Valid()
      reads this, quirkEd
    {
      && first <= 2
      && (quirkEd == null <==> quirkTd == null)
      && (quirkEd != null ==> DummyReady(quirkEd))
      && (first >= 1 ==> tSetup != null)
      && (first == 2 ==> tData != null && tData != tSetup)
    }

    constructor (hw: Bus)
      ensures Valid() && this.hw == hw && first == 0
      ensures quirkEd == null && quirkTd == null && tSetup == null && tData == null
    {
      this.hw := hw;
      quirkEd, quirkTd := null, null;
      first := 0;
      tSetup, tData := null, null;
      installed, tStatus := null, null;
    }

    /** control_quirk. On the first call that gets both allocations it builds
        an empty ED, direction OUT, whose head and tail point at a dummy TD;
        a failed TD allocation drops the ED again, so the next call retries. */
    method ControlQuirk(rp: QuirkReplies) returns (stuck: bool)
      requires Valid() && hw.Valid()
      modifies this, hw
      ensures Valid() && hw.Valid() && hw.ee == old(hw.ee)
      ensures first == old(first) && tSetup == old(tSetup) && tData == old(tData)
      ensures installed == old(installed) && tStatus == old(tStatus)
      ensures old(quirkEd) != null ==> quirkEd == old(quirkEd) && quirkTd == old(quirkTd)
      ensures old(quirkEd) == null ==> (quirkEd != null <==> rp.edAt != 0 && rp.tdAt != 0)
      ensures old(quirkEd) == null && quirkEd != null ==>
                && fresh(quirkEd) && fresh(quirkTd) && quirkEd.phys == rp.edAt && quirkTd.phys == rp.tdAt
                && EmptyTd(quirkTd) && PointsAt(quirkEd, quirkTd)
      ensures hw.trace == QuirkLog(quirkEd != null, EdAt(quirkEd), old(hw.Read32(CTRL_HEAD)), old(hw.Read32(CONTROL)),
                                   rp.currentPoll, old(hw.trace))
      ensures stuck == QuirkStuck(quirkEd != null, old(hw.Read32(CTRL_HEAD)), rp.currentPoll)
      ensures !stuck ==> hw.Read32(CTRL_HEAD) == old(hw.Read32(CTRL_HEAD)) && hw.Read32(CONTROL) == old(hw.Read32(CONTROL))
    {
      if quirkEd == null {
        AllocateDummy(rp.edAt, rp.tdAt);
      }
      stuck := RunQuirk(hw, quirkEd != null, EdAt(quirkEd), rp.currentPoll);
    }

    /** The one-time allocation step of control_quirk. */
    method AllocateDummy(edAt: bv32, tdAt: bv32)
      requires Valid() && quirkEd == null
      modifies this
      ensures Valid()
      ensures first == old(first) && tSetup == old(tSetup) && tData == old(tData)
      ensures installed == old(installed) && tStatus == old(tStatus)
      ensures quirkEd != null <==> edAt != 0 && tdAt != 0
      ensures quirkEd != null ==>
                && fresh(quirkEd) && fresh(quirkTd) && quirkEd.phys == edAt && quirkTd.phys == tdAt
                && EmptyTd(quirkTd) && PointsAt(quirkEd, quirkTd)
    {
      var ed := AllocateEndpoint(edAt);
      if ed == null {
        return;
      }
      var td := AllocateGeneralTd(tdAt, 0, 0);
      if td == null {
        return;
      }
      PointAtDummy(ed, td);
      quirkEd, quirkTd := ed, td;
    }

    /** hcdi_enqueue, with `tdAt` and `bufAt` what memalign and malloc
        return for the call's TD and its buffer. The first two calls of every
        three only build and stash a TD; the third builds the status TD,
        runs the quirk, links setup, data and status TDs behind a new
        low-speed ED, starts the control list on it, waits for the controller
        and clears CLE. Every call returns 0. */
    method Enqueue(src: Transfer, tdAt: bv32, bufAt: U32, rp: EnqueueReplies) returns (r: bv8, stuck: bool)
      requires Valid() && hw.Valid() && tdAt != 0 && |src.data| < 0x1_0000_0000
      requires first == 2 ==> rp.edAt != 0
      modifies this, hw, tSetup, tData
      ensures Valid() && hw.Valid() && hw.ee == old(hw.ee) && r == 0
      ensures first == (old(first) + 1) % 3
      ensures old(first) < 2 ==> !stuck && hw.trace == old(hw.trace)
      ensures old(first) < 2 ==> quirkEd == old(quirkEd) && quirkTd == old(quirkTd)
      ensures old(quirkEd) != null ==> quirkEd == old(quirkEd) && quirkTd == old(quirkTd)
      ensures old(first) == 2 && old(quirkEd) == null ==> (quirkEd != null <==> rp.quirk.edAt != 0 && rp.quirk.tdAt != 0)
      ensures old(first) == 0 ==> fresh(tSetup) && Filled(tSetup, src, tdAt, bufAt)
      ensures old(first) == 1 ==> tSetup == old(tSetup) && fresh(tData) && Filled(tData, src, tdAt, bufAt)
      ensures old(first) == 2 ==>
                && tSetup == old(tSetup) && tData == old(tData)
                && fresh(tStatus) && Filled(tStatus, src, tdAt, bufAt)
                && hw.trace == EnqueueLog(quirkEd != null, EdAt(quirkEd), old(hw.Read32(CTRL_HEAD)), old(hw.Read32(CONTROL)),
                                          rp, old(hw.trace))
                && stuck == EnqueueStuck(quirkEd != null, old(hw.Read32(CTRL_HEAD)), rp)
      ensures old(first) == 2 && !QuirkStuck(quirkEd != null, old(hw.Read32(CTRL_HEAD)), rp.quirk.currentPoll) ==>
                && fresh(installed) && installed.phys == rp.edAt
                && Linked(installed, tSetup, tData, tStatus, src)
                && tSetup.flags == old(tSetup.flags) && tData.flags == old(tData.flags)
    {
      r := 0;
      stuck := false;
      var td := NewFilledTd(src, tdAt, bufAt);
      if first < 2 {
        Stash(td);
      } else {
        stuck := Complete(td, src, rp);
      }
    }

    /** The first and second call of every three: keep the new TD as the
        setup or the data TD and advance the stage. */
    method Stash(td: Td)
      requires Valid() && first < 2
      requires first == 1 ==> td != tSetup
      modifies this
      ensures Valid() && first == old(first) + 1
      ensures quirkEd == old(quirkEd) && quirkTd == old(quirkTd)
      ensures old(first) == 0 ==> tSetup == td
      ensures old(first) == 1 ==> tSetup == old(tSetup) && tData == td
    {
      if first == 0 {
        tSetup := td;
      } else {
        tData := td;
      }
      first := first + 1;
    }

    /** The third call after its status TD is built: the quirk, then the
        new ED unless the quirk never returns. */
    method Complete(status: Td, src: Transfer, rp: EnqueueReplies) returns (stuck: bool)
      requires Valid() && hw.Valid() && first == 2 && rp.edAt != 0
      modifies this, hw, tSetup, tData
      ensures Valid() && hw.Valid() && hw.ee == old(hw.ee) && first == 0
      ensures tSetup == old(tSetup) && tData == old(tData) && tStatus == status
      ensures old(quirkEd) != null ==> quirkEd == old(quirkEd) && quirkTd == old(quirkTd)
      ensures old(quirkEd) == null ==> (quirkEd != null <==> rp.quirk.edAt != 0 && rp.quirk.tdAt != 0)
      ensures hw.trace == EnqueueLog(quirkEd != null, EdAt(quirkEd), old(hw.Read32(CTRL_HEAD)), old(hw.Read32(CONTROL)),
                                     rp, old(hw.trace))
      ensures stuck == EnqueueStuck(quirkEd != null, old(hw.Read32(CTRL_HEAD)), rp)
      ensures !QuirkStuck(quirkEd != null, old(hw.Read32(CTRL_HEAD)), rp.quirk.currentPoll) ==>
                && fresh(installed) && installed.phys == rp.edAt
                && Linked(installed, tSetup, tData, status, src)
                && tSetup.flags == old(tSetup.flags) && tData.flags == old(tData.flags)
    {
      ghost var head, ctrl, t := hw.Read32(CTRL_HEAD), hw.Read32(CONTROL), hw.trace;
      first := 0;
      tStatus := status;
      stuck := ControlQuirk(rp.quirk);
      assert hw.trace == QuirkLog(quirkEd != null, EdAt(quirkEd), head, ctrl, rp.quirk.currentPoll, t);
      if stuck {
        return;
      }
      ghost var quirked := hw.trace;
      assert hw.Read32(CONTROL) == ctrl;
      stuck := InstallNew(status, src, rp);
      assert hw.trace == ScheduleLog(rp.edAt, ctrl, rp.listPoll, quirked);
    }

    /** The third call once the quirk has returned: a new ED for the
        transfer, installed and started. */
    method InstallNew(status: Td, src: Transfer, rp: EnqueueReplies) returns (stuck: bool)
      requires Valid() && hw.Valid() && first == 0 && tSetup != null && tData != null && tSetup != tData
      requires rp.edAt != 0
      modifies this, hw, tSetup, tData
      ensures Valid() && hw.Valid() && hw.ee == old(hw.ee) && first == 0
      ensures quirkEd == old(quirkEd) && quirkTd == old(quirkTd)
      ensures tSetup == old(tSetup) && tData == old(tData) && tStatus == old(tStatus)
      ensures hw.trace == ScheduleLog(rp.edAt, old(hw.Read32(CONTROL)), rp.listPoll, old(hw.trace))
      ensures stuck == (FirstSet(rp.listPoll, ANY) < 0)
      ensures fresh(installed) && installed.phys == rp.edAt
      ensures Linked(installed, tSetup, tData, status, src)
      ensures tSetup.flags == old(tSetup.flags) && tData.flags == old(tData.flags)
    {
      var ed := BuildEd(rp.edAt, src);
      stuck := Install(hw, ed, tSetup, tData, status, src, rp.listPoll);
      installed := ed;
    }

    /** allocate_general_td(actlen) followed by general_td_fill. */
    static method NewFilledTd(src: Transfer, tdAt: bv32, bufAt: U32) returns (td: Td)
      requires tdAt != 0 && |src.data| < 0x1_0000_0000
      ensures fresh(td) && fresh(td.buffer) && Filled(td, src, tdAt, bufAt)
    {
      var t := AllocateGeneralTd(tdAt, bufAt, |src.data|);
      td := t;
      FillGeneralTd(td, src);
      assert td.buffer[..] == src.data;
      AccessLeInvolutive(td.flags);
      AccessLeInvolutive(td.cbp);
      AccessLeInvolutive(td.be);
      AccessLeInvolutive(td.nexttd);
    }
  }

  /** The ED the third call of hcdi_enqueue installs, in controller byte
      order: the transfer's flags, head on the setup TD, no tail and no next
      ED; and the setup, data and status TDs chained in that order. */
  ghost predicate Linked(ed: Ed, setup: Td, data: Td, status: Td, src: Transfer)
    reads ed, setup, data
  {
    && ed.flags == AccessLe(DummyEdFlags(src))
    && ed.headp == setup.link
    && ed.tailp == AccessLe(0) && ed.nexted == AccessLe(0)
    && setup.nexttd == data.link
    && data.nexttd == status.link
  }

  /** Decoded, the installed ED carries the transfer's flags and points at
      the setup TD, which points at the data TD, which points at the status
      TD. */
  lemma LinkedDecoded(ed: Ed, setup: Td, data: Td, status: Td, src: Transfer)
    requires Linked(ed, setup, data, status, src)
    ensures AccessLe(ed.flags) == DummyEdFlags(src)
    ensures AccessLe(ed.headp) == setup.phys & ED_MASK
    ensures AccessLe(ed.tailp) == 0 && AccessLe(ed.nexted) == 0
    ensures AccessLe(setup.nexttd) == data.phys & ED_MASK
    ensures AccessLe(data.nexttd) == status.phys & ED_MASK
  {
    AccessLeInvolutive(DummyEdFlags(src));
    AccessLeInvolutive(setup.phys & ED_MASK);
    AccessLeInvolutive(0);
    AccessLeInvolutive(data.phys & ED_MASK);
    AccessLeInvolutive(status.phys & ED_MASK);
  }

  /** The third call's allocate_endpoint and the flags it ORs in. */
  method BuildEd(edAt: bv32, src: Transfer) returns (ed: Ed)
    requires edAt != 0
    ensures fresh(ed) && ed.phys == edAt
    ensures ed.flags == AccessLe(DummyEdFlags(src))
    ensures ed.headp == AccessLe(0) && ed.tailp == AccessLe(0) && ed.nexted == AccessLe(0)
  {
    var e := AllocateEndpoint(edAt);
    ed := e;
    ed.flags := AccessLe(ED_GENERAL_FORMAT);
    var zero := AccessLe(0);
    ed.headp, ed.tailp, ed.nexted := zero, zero, zero;
    var bits := ED_LOW_SPEED | EdDeviceAddress(src.devaddress) | EdEndpointNumber(src.endpoint) | EdMaxPacketSize(src.maxp);
    AccessLeBitwise(ED_GENERAL_FORMAT, bits);
    ed.flags := ed.flags | AccessLe(bits);
  }

  /** The third call's linking: the ED's head gets the setup TD ORed in,
      setup points at data and data at status. */
  method LinkTds(ed: Ed, setup: Td, data: Td, status: Td, src: Transfer)
    requires ed.flags == AccessLe(DummyEdFlags(src))
    requires ed.headp == AccessLe(0) && ed.tailp == AccessLe(0) && ed.nexted == AccessLe(0)
    requires setup != data
    modifies ed, setup, data
    ensures Linked(ed, setup, data, status, src)
    ensures setup.flags == old(setup.flags) && data.flags == old(data.flags)
  {
    var head := AccessLe(setup.phys & ED_MASK);
    assert AccessLe(0) == 0;
    ed.headp := ed.headp | head;
    setup.nexttd := AccessLe(data.phys & ED_MASK);
    data.nexttd := AccessLe(status.phys & ED_MASK);
  }

  /** The third call once its ED is built: make it the control list head,
      link the TDs behind it and start the list. */
  method Install(hw: Bus, ed: Ed, setup: Td, data: Td, status: Td, src: Transfer, poll: seq<bv32>) returns (stuck: bool)
    requires hw.Valid() && setup != data
    requires ed.flags == AccessLe(DummyEdFlags(src))
    requires ed.headp == AccessLe(0) && ed.tailp == AccessLe(0) && ed.nexted == AccessLe(0)
    modifies hw, ed, setup, data
    ensures hw.Valid() && hw.ee == old(hw.ee)
    ensures hw.trace == ScheduleLog(ed.phys, old(hw.Read32(CONTROL)), poll, old(hw.trace))
    ensures stuck == (FirstSet(poll, ANY) < 0)
    ensures Linked(ed, setup, data, status, src)
    ensures setup.flags == old(setup.flags) && data.flags == old(data.flags)
  {
    hw.Write32(CTRL_HEAD, ed.phys);
    assert hw.Read32(CONTROL) == old(hw.Read32(CONTROL));
    LinkTds(ed, setup, data, status, src);
    stuck := StartList(hw, poll);
  }

  /** The register part of the third call after the ED is the list head:
      set CLE, write ControlListFilled, wait for HcControlCurrentED to read
      non-zero and clear CLE again. */
  method StartList(hw: Bus, poll: seq<bv32>) returns (stuck: bool)
    requires hw.Valid()
    modifies hw
    ensures hw.Valid() && hw.ee == old(hw.ee)
    ensures var ctrl := old(hw.Read32(CONTROL));
            var started := old(hw.trace) + [Write(CONTROL, SetBits(ctrl, CTRL_CLE))] + [Write(COMMAND, CLF)];
            hw.trace == if FirstSet(poll, ANY) < 0 then started
                        else started + [Write(CONTROL, ClearBits(SetBits(ctrl, CTRL_CLE), CTRL_CLE))]
    ensures stuck == (FirstSet(poll, ANY) < 0)
  {
    hw.Set32(CONTROL, CTRL_CLE);
    hw.Write32(COMMAND, CLF);
    var k := Spin(poll, ANY);
    if k < 0 {
      return true;
    }
    hw.Clear32(CONTROL, CTRL_CLE);
    stuck := false;
  }
}
