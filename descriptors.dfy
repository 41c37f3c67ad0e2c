/** Endpoint and general transfer descriptors as the driver builds them in
    memory (usb/host/ohci.c). Every word the controller reads is stored
    byte-swapped by ACCESS_LE; the contracts talk about the decoded values. */
module Descriptors {
  import opened Bits
  import opened OhciRegs

  /** struct endpoint_descriptor: four little-endian words at a 16-byte aligned
      physical address. */
  class Ed {
    const phys: bv32
    var flags: bv32
    var headp: bv32
    var tailp: bv32
    var nexted: bv32

    /** The body of allocate_endpoint once memalign has returned `phys`. */
    constructor (phys: bv32)
      ensures this.phys == phys
      ensures AccessLe(flags) == ED_GENERAL_FORMAT
      ensures AccessLe(headp) == 0 && AccessLe(tailp) == 0 && AccessLe(nexted) == 0
    {
      this.phys := phys;
      flags := AccessLe(ED_GENERAL_FORMAT);
      var zero := AccessLe(0);
      headp, tailp, nexted := zero, zero, zero;
      AccessLeInvolutive(ED_GENERAL_FORMAT);
      AccessLeInvolutive(0);
    }
  }

  /** A 32-bit quantity held as a number: a physical address or a byte count. */
  type U32 = x: int | 0 <= x < 0x1_0000_0000

  /** The register-width word holding a number. */
  function Word(n: U32): bv32
  {
    n as bv32
  }

  /** struct general_td, with the data buffer its cbp/be words delimit. */
  class Td {
    const phys: bv32
    /** The word that points at this TD from an ED's head or another TD's
        next field: its address with the low four bits cleared, in
        controller byte order. */
    const link: bv32 := AccessLe(phys & ED_MASK)
    const buffer: array<bv8>
    var flags: bv32
    var cbp: bv32
    var be: bv32
    var nexttd: bv32

    /** A TD at `phys` whose buffer, starting at physical `bufPhys`, is `buffer`;
        flags, nexttd, cbp and be are set the way allocate_general_td sets them. */
    constructor (phys: bv32, buffer: array<bv8>, bufPhys: U32)
      requires buffer.Length < 0x1_0000_0000
      ensures this.phys == phys && this.buffer == buffer
      ensures AccessLe(flags) == 0 && AccessLe(nexttd) == 0
      ensures AccessLe(cbp) == Word(TdBuffer(bufPhys, buffer.Length).0)
      ensures AccessLe(be) == Word(TdBuffer(bufPhys, buffer.Length).1)
    {
      this.phys := phys;
      this.buffer := buffer;
      flags := AccessLe(0);
      nexttd := AccessLe(0);
      var span := TdBuffer(bufPhys, buffer.Length);
      cbp := AccessLe(Word(span.0));
      be := AccessLe(Word(span.1));
      AccessLeInvolutive(0);
      AccessLeInvolutive(Word(span.0));
      AccessLeInvolutive(Word(span.1));
    }
  }

  /** The (cbp, be) pair of a TD whose buffer of `size` bytes starts at
      `start`: both zero when there is no buffer, else the first and the last
      byte of the buffer, computed in 32-bit arithmetic (section 4.3.1.2 of
      the OHCI specification). */
  function TdBuffer(start: U32, size: U32): (r: (U32, U32))
    ensures size == 0 ==> r == (0, 0)
    ensures size != 0 ==> r.0 == start
    ensures size != 0 && start + size <= 0x1_0000_0000 ==> r.1 - r.0 + 1 == size
    ensures size != 0 && start + size > 0x1_0000_0000 ==> r.1 + 0x1_0000_0000 - r.0 + 1 == size
  {
    if size == 0 then (0, 0) else (start, (start + size - 1) % 0x1_0000_0000)
  }

  /** allocate_endpoint: `at` is what memalign(16, 16) returned, 0 for NULL. */
  method AllocateEndpoint(at: bv32) returns (ed: Ed?)
    ensures ed == null <==> at == 0
    ensures ed != null ==>
              && fresh(ed) && ed.phys == at
              && AccessLe(ed.flags) == ED_GENERAL_FORMAT
              && AccessLe(ed.headp) == 0 && AccessLe(ed.tailp) == 0 && AccessLe(ed.nexted) == 0
  {
    if at == 0 {
      ed := null;
    } else {
      ed := new Ed(at);
    }
  }

  /** allocate_general_td: `at` is what memalign returned for the TD, `bufAt`
      what malloc returned for a buffer of `bsize` bytes, which is then
      zero-filled. */
  method AllocateGeneralTd(at: bv32, bufAt: U32, bsize: U32) returns (td: Td?)
    ensures td == null <==> at == 0
    ensures td != null ==>
              && fresh(td) && fresh(td.buffer) && td.phys == at
              && AccessLe(td.flags) == 0 && AccessLe(td.nexttd) == 0
              && AccessLe(td.cbp) == Word(TdBuffer(bufAt, bsize).0)
              && AccessLe(td.be) == Word(TdBuffer(bufAt, bsize).1)
              && td.buffer.Length == bsize
              && forall i :: 0 <= i < td.buffer.Length ==> td.buffer[i] == 0
  {
    if at == 0 {
      td := null;
    } else {
      var buf := new bv8[bsize];
      forall i | 0 <= i < buf.Length {
        buf[i] := 0;
      }
      td := new Td(at, buf, bufAt);
    }
  }

  /** USB packet identifiers a transfer descriptor may carry. */
  datatype Pid = Setup | Out | In | Other

  /** The fields of usb_transfer_descriptor the driver reads. */
  datatype Transfer = Transfer(pid: Pid, data: seq<bv8>, devaddress: bv32, endpoint: bv32, maxp: bv32)

  /** The direction/PID code general_td_fill puts in the DP field. */
  function PidCode(p: Pid): bv32
  {
    match p
    case Setup => TD_PID_SETUP
    case Out => TD_PID_OUT
    case In => TD_PID_IN
    case Other => TD_PID_SETUP
  }

  /** The data toggle bits general_td_fill ORs in. */
  function ToggleAdded(p: Pid): bv32
  {
    match p
    case Setup => TD_TOGGLE_0
    case Out => TD_TOGGLE_1
    case _ => TD_TOGGLE_CARRY
  }

  /** The flag bits general_td_fill touches; every other bit is preserved. */
  const TD_FILL_BITS: bv32 := TD_PID_MASK | TD_BUFFER_ROUNDING | TD_TOGGLE_MASK | TD_DELAY_INTERRUPT_MASK

  /** The bits general_td_fill ORs in for a PID, besides the delay interrupt. */
  function PidBits(p: Pid): (b: bv32)
    ensures b & TD_PID_MASK == PidCode(p)
    ensures b & TD_TOGGLE_MASK == ToggleAdded(p)
    ensures b & TD_BUFFER_ROUNDING == (if p == Other then 0 else TD_BUFFER_ROUNDING)
    ensures b & TD_DELAY_INTERRUPT_MASK == 0
    ensures b & !TD_FILL_BITS == 0
  {
    match p
    case Setup => TD_PID_SETUP | TD_TOGGLE_0 | TD_BUFFER_ROUNDING
    case Out => TD_PID_OUT | TD_BUFFER_ROUNDING | TD_TOGGLE_1
    case In => TD_PID_IN | TD_BUFFER_ROUNDING | TD_TOGGLE_CARRY
    case Other => 0
  }

  /** The decoded TD flags after general_td_fill, from the decoded flags before. */
  function FilledFlags(flags: bv32, p: Pid): bv32
  {
    (flags & !TD_PID_MASK) | PidBits(p) | TdDelayInterrupt(7)
  }

  /** Field by field, the fill replaces the PID, sets rounding for the three
      known PIDs, ORs the toggle in, sets a delay of 7 frames and leaves every
      other bit as it was. */
  lemma FilledFlagsFields(flags: bv32, p: Pid)
    ensures FilledFlags(flags, p) & TD_PID_MASK == PidCode(p)
    ensures FilledFlags(flags, p) & TD_DELAY_INTERRUPT_MASK == TdDelayInterrupt(7)
    ensures FilledFlags(flags, p) & TD_BUFFER_ROUNDING
            == (if p == Other then flags & TD_BUFFER_ROUNDING else TD_BUFFER_ROUNDING)
    ensures FilledFlags(flags, p) & TD_TOGGLE_MASK == (flags & TD_TOGGLE_MASK) | ToggleAdded(p)
    ensures FilledFlags(flags, p) & !TD_FILL_BITS == flags & !TD_FILL_BITS
  {
  }

  /** On a freshly allocated TD the fill leaves DATA0 for SETUP, DATA1 for OUT
      and the ED's carry for IN, all with rounding and a delay of 7 frames. */
  lemma FreshTdFlags()
    ensures FilledFlags(0, Setup) == 0x02E4_0000
    ensures FilledFlags(0, Out) == 0x03EC_0000
    ensures FilledFlags(0, In) == 0x00F4_0000
    ensures FilledFlags(0, Other) == 0x00E0_0000
  {
  }

  /** Filling again with the same PID changes nothing more. */
  lemma FillIdempotent(flags: bv32, p: Pid)
    ensures FilledFlags(FilledFlags(flags, p), p) == FilledFlags(flags, p)
  {
  }

  /** general_td_fill: copy the transfer's bytes into the TD buffer and set the
      PID, toggle, rounding and delay-interrupt fields, operating on the
      byte-swapped flags word in place. */
  method FillGeneralTd(dest: Td, src: Transfer)
    requires |src.data| <= dest.buffer.Length
    modifies dest, dest.buffer
    ensures AccessLe(dest.flags) == FilledFlags(AccessLe(old(dest.flags)), src.pid)
    ensures dest.cbp == old(dest.cbp) && dest.be == old(dest.be) && dest.nexttd == old(dest.nexttd)
    ensures dest.buffer[..] == src.data + old(dest.buffer[|src.data|..])
  {
    forall i | 0 <= i < |src.data| {
      dest.buffer[i] := src.data[i];
    }
    dest.flags := dest.flags & AccessLe(!TD_PID_MASK);
    SetPidFields(dest, src.pid);
    dest.flags := dest.flags | AccessLe(TdDelayInterrupt(7));
  }

  /** The switch on the PID in general_td_fill: OR the PID, rounding and
      toggle bits into the byte-swapped flags word. */
  method SetPidFields(dest: Td, p: Pid)
    modifies dest
    ensures AccessLe(dest.flags) == AccessLe(old(dest.flags)) | PidBits(p)
    ensures dest.cbp == old(dest.cbp) && dest.be == old(dest.be) && dest.nexttd == old(dest.nexttd)
  {
    match p {
      case Setup =>
        dest.flags := dest.flags | AccessLe(TD_PID_SETUP);
        dest.flags := dest.flags | AccessLe(TD_TOGGLE_0);
        dest.flags := dest.flags | AccessLe(TD_BUFFER_ROUNDING);
      case Out =>
        dest.flags := dest.flags | AccessLe(TD_PID_OUT);
        dest.flags := dest.flags | AccessLe(TD_BUFFER_ROUNDING);
        dest.flags := dest.flags | AccessLe(TD_TOGGLE_1);
      case In =>
        dest.flags := dest.flags | AccessLe(TD_PID_IN);
        dest.flags := dest.flags | AccessLe(TD_BUFFER_ROUNDING);
        dest.flags := dest.flags | AccessLe(TD_TOGGLE_CARRY);
      case Other =>
    }
  }
}
