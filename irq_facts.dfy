/** What irq_handler guarantees, proved about its specification `Handle`:
    which flags it clears, which it never touches, and how it ends. */
module IrqFacts {
  import opened Mmio
  import opened Irq

  /** Position of a source among the handler's tests. */
  function IndexOf(s: Source): (k: nat)
    ensures k < |ORDER| && ORDER[k] == s
  {
    match s
    case Timer => 0   case Nand => 1   case Gpio1b => 2   case Gpio1 => 3   case Reset => 4
    case Ipc => 5     case Aes => 6    case Sdhc => 7     case Ohci0 => 8   case Ohci1 => 9
  }

  /** ORDER lists every source once. */
  lemma OrderIndex(k: nat)
    requires k < |ORDER|
    ensures IndexOf(ORDER[k]) == k
  {
  }

  /** Whether source `s` is among the pending and enabled bits `p`. */
  predicate Pending(l: Layout, p: bv32, s: Source)
  {
    AnySet(p, l.irqf(s))
  }

  /** The tests of the `k`-th up to, not including, the `j`-th source all return. */
  predicate Reaches(l: Layout, p: bv32, k: nat, j: nat)
    requires j <= |ORDER|
    decreases j - k
  {
    k >= j || (!HaltsAt(l, p, k) && Reaches(l, p, k + 1, j))
  }

  /** The write that clears source `s` in HW_PPCIRQFLAG. */
  function Ack(l: Layout, s: Source): Event
  {
    Write(l.hwFlag, l.irqf(s))
  }

  /** The write that silences a device before its flag is cleared, if any. */
  function Silence(l: Layout, s: Source): seq<Event>
  {
    match s
    case Nand => [Write(l.nandCmd, 0x7fff_ffff)]
    case Gpio1b => [Write(l.gpio1bIntFlag, 0xFF_FFFF)]
    case Gpio1 => [Write(l.gpio1IntFlag, 0xFF_FFFF)]
    case _ => []
  }

  /** A write the second level of the handler may make. */
  predicate SecondLevelWrite(l: Layout, e: Event)
  {
    e.Write? && (e.addr == l.hwFlag || e.addr == l.nandCmd || e.addr == l.gpio1bIntFlag || e.addr == l.gpio1IntFlag)
  }

  /** The consequences of `WellFormed` the handler's proofs use: the
      registers the second level writes differ, no two sources share a flag
      value, and the unknown-source write never equals a known source's. */
  ghost predicate Separated(l: Layout)
  {
    && l.hwFlag != l.nandCmd && l.hwFlag != l.gpio1bIntFlag && l.hwFlag != l.gpio1IntFlag
    && (forall s, s' :: l.irqf(s) == l.irqf(s') ==> s == s')
    && (forall p, s :: Unknown(l, p) != l.irqf(s))
  }

  // ---- bit-level facts ------------------------------------------------------

  /** Two sources of a well-formed layout never share a flag value. */
  lemma IrqfInjective(l: Layout, s: Source, s': Source)
    requires WellFormed(l) && s != s'
    ensures l.irqf(s) != l.irqf(s')
  {
    assert Masked(l.irqf(s), l.irqf(s')) == 0 && l.irqf(s) != 0;
  }

  lemma OrCovers(x: bv32, rest: bv32)
    ensures Masked(x, SetBits(rest, x)) == x
  {
  }

  lemma OrKeepsCover(x: bv32, rest: bv32, y: bv32)
    requires Masked(x, rest) == x
    ensures Masked(x, SetBits(rest, y)) == x
  {
  }

  /** The bits of a source lie inside the union from its position back. */
  lemma {:induction false} AllFromCovers(l: Layout, k: nat, s: Source)
    requires k <= IndexOf(s)
    ensures Masked(l.irqf(s), AllFrom(l, k)) == l.irqf(s)
    decreases |ORDER| - k
  {
    if k == IndexOf(s) {
      OrCovers(l.irqf(s), AllFrom(l, k + 1));
    } else {
      AllFromCovers(l, k + 1, s);
      OrKeepsCover(l.irqf(s), AllFrom(l, k + 1), l.irqf(ORDER[k]));
    }
  }

  /** Every source's bits lie inside IRQF_ALL. */
  lemma AllCovers(l: Layout, s: Source)
    ensures Masked(l.irqf(s), All(l)) == l.irqf(s)
  {
    AllFromCovers(l, 0, s);
  }

  lemma ClearedBitsDisjoint(p: bv32, a: bv32, x: bv32)
    requires Masked(x, a) == x && x != 0
    ensures ClearBits(p, a) != x
  {
  }

  /** The single write for unknown sources never looks like a known source's
      acknowledgement. */
  lemma UnknownIsNoAck(l: Layout, p: bv32, s: Source)
    requires WellFormed(l)
    ensures Unknown(l, p) != l.irqf(s)
  {
    AllCovers(l, s);
    ClearedBitsDisjoint(p, All(l), l.irqf(s));
  }

  lemma WellFormedSeparated(l: Layout)
    requires WellFormed(l)
    ensures Separated(l)
  {
    var rs := Registers(l);
    assert rs[2] != rs[5] && rs[2] != rs[6] && rs[2] != rs[7];
    forall s, s' | l.irqf(s) == l.irqf(s')
      ensures s == s'
    {
      if s != s' {
        IrqfInjective(l, s, s');
      }
    }
    forall p, s
      ensures Unknown(l, p) != l.irqf(s)
    {
      UnknownIsNoAck(l, p, s);
    }
  }

  lemma MaskedOut(f: bv32, m: bv32, b: bv32)
    requires !AnySet(m, b)
    ensures !AnySet(Masked(f, m), b)
  {
  }

  // ---- one acknowledgement --------------------------------------------------

  /** Acknowledging one source adds the write that silences its device, if
      any, then the write that clears its flag. */
  lemma AckLogAdds(l: Layout, s: Source, t: seq<Event>)
    ensures Extends(AckLog(l, s, t), t)
    ensures AckLog(l, s, t)[|t|..] == Silence(l, s) + [Ack(l, s)]
  {
    var r := AckLog(l, s, t);
    assert r == t + (Silence(l, s) + [Ack(l, s)]);
  }

  /** Every write acknowledging a source belongs to the second level. */
  lemma AckLogWrites(l: Layout, s: Source, t: seq<Event>)
    ensures forall e :: e in AckLog(l, s, t)[|t|..] ==> SecondLevelWrite(l, e)
  {
    AckLogAdds(l, s, t);
  }

  /** A known source's acknowledgement is added by its own test only. */
  lemma AckLogAcks(l: Layout, s: Source, s': Source, t: seq<Event>)
    requires Separated(l)
    ensures Ack(l, s') in AckLog(l, s, t)[|t|..] <==> s' == s
  {
    AckLogAdds(l, s, t);
    assert Ack(l, s') !in Silence(l, s);
  }

  /** The test of one source adds its acknowledgement when it is pending, and
      nothing otherwise. */
  lemma StepLogAdds(l: Layout, p: bv32, k: nat, t: seq<Event>)
    requires k < |ORDER|
    ensures Extends(StepLog(l, p, k, t), t)
    ensures StepLog(l, p, k, t)[|t|..]
            == if Pending(l, p, ORDER[k]) then Silence(l, ORDER[k]) + [Ack(l, ORDER[k])] else []
  {
    if Pending(l, p, ORDER[k]) {
      AckLogAdds(l, ORDER[k], t);
    }
  }

  // ---- the second level -----------------------------------------------------

  /** The unknown-source tail adds at most the one write of the unknown bits. */
  lemma UnknownLogAdds(l: Layout, p: bv32, t: seq<Event>)
    ensures Extends(UnknownLog(l, p, t), t)
    ensures UnknownLog(l, p, t)[|t|..] == if Unknown(l, p) != 0 then [Write(l.hwFlag, Unknown(l, p))] else []
  {
  }

  /** The second level writes only HW_PPCIRQFLAG and the three devices it
      silences. */
  lemma {:induction false} DispatchWrites(l: Layout, p: bv32, k: nat, t: seq<Event>)
    requires k <= |ORDER|
    ensures forall e :: e in Dispatch(l, p, k, t)[|t|..] ==> SecondLevelWrite(l, e)
    decreases |ORDER| - k
  {
    var r := Dispatch(l, p, k, t);
    if k == |ORDER| {
      UnknownLogAdds(l, p, t);
    } else if HaltsAt(l, p, k) {
      AckLogWrites(l, ORDER[k], t);
    } else {
      var t' := StepLog(l, p, k, t);
      StepLogWrites(l, p, k, t);
      DispatchWrites(l, p, k + 1, t');
      AddedSplit(r, t', t);
      WritesJoin(l, t'[|t|..], r[|t'|..]);
    }
  }

  /** The test of one source makes only second-level writes. */
  lemma StepLogWrites(l: Layout, p: bv32, k: nat, t: seq<Event>)
    requires k < |ORDER|
    ensures Extends(StepLog(l, p, k, t), t)
    ensures forall e :: e in StepLog(l, p, k, t)[|t|..] ==> SecondLevelWrite(l, e)
  {
    if AnySet(p, l.irqf(ORDER[k])) {
      AckLogAdds(l, ORDER[k], t);
      AckLogWrites(l, ORDER[k], t);
    } else {
      assert StepLog(l, p, k, t)[|t|..] == [];
    }
  }

  lemma WritesJoin(l: Layout, a: seq<Event>, b: seq<Event>)
    requires forall e :: e in a ==> SecondLevelWrite(l, e)
    requires forall e :: e in b ==> SecondLevelWrite(l, e)
    ensures forall e :: e in a + b ==> SecondLevelWrite(l, e)
  {
  }

  /** The second level clears the flag of source `s` exactly when `s` is
      pending, its test comes at or after the `k`-th, and no source tested
      before it stopped the handler. */
  lemma {:induction false} DispatchAcks(l: Layout, p: bv32, k: nat, t: seq<Event>, s: Source)
    requires Separated(l) && k <= |ORDER|
    ensures Ack(l, s) in Dispatch(l, p, k, t)[|t|..]
            <==> k <= IndexOf(s) && Pending(l, p, s) && Reaches(l, p, k, IndexOf(s))
    decreases |ORDER| - k
  {
    if k == |ORDER| {
      UnknownLogAdds(l, p, t);
    } else if HaltsAt(l, p, k) {
      AcksWhenHalting(l, p, k, t, s);
    } else {
      DispatchAcks(l, p, k + 1, StepLog(l, p, k, t), s);
      AcksWhenStepping(l, p, k, t, s);
    }
  }

  /** DispatchAcks when the `k`-th test stops the handler. */
  lemma AcksWhenHalting(l: Layout, p: bv32, k: nat, t: seq<Event>, s: Source)
    requires Separated(l) && k < |ORDER| && HaltsAt(l, p, k)
    ensures Ack(l, s) in Dispatch(l, p, k, t)[|t|..]
            <==> k <= IndexOf(s) && Pending(l, p, s) && Reaches(l, p, k, IndexOf(s))
  {
    OrderIndex(k);
    AckLogAcks(l, ORDER[k], s, t);
    assert Dispatch(l, p, k, t) == AckLog(l, ORDER[k], t);
    assert IndexOf(s) > k ==> !Reaches(l, p, k, IndexOf(s));
  }

  /** DispatchAcks when the `k`-th test returns, from the same fact for the
      tests after it. */
  lemma AcksWhenStepping(l: Layout, p: bv32, k: nat, t: seq<Event>, s: Source)
    requires Separated(l) && k < |ORDER| && !HaltsAt(l, p, k)
    requires Ack(l, s) in Dispatch(l, p, k + 1, StepLog(l, p, k, t))[|StepLog(l, p, k, t)|..]
             <==> k + 1 <= IndexOf(s) && Pending(l, p, s) && Reaches(l, p, k + 1, IndexOf(s))
    ensures Ack(l, s) in Dispatch(l, p, k, t)[|t|..]
            <==> k <= IndexOf(s) && Pending(l, p, s) && Reaches(l, p, k, IndexOf(s))
  {
    var j := IndexOf(s);
    OrderIndex(k);
    var t' := StepLog(l, p, k, t);
    var r := Dispatch(l, p, k + 1, t');
    assert Dispatch(l, p, k, t) == r;
    StepLogAdds(l, p, k, t);
    AddedSplit(r, t', t);
    if Pending(l, p, ORDER[k]) {
      AckLogAcks(l, ORDER[k], s, t);
    }
    assert j > k ==> (Reaches(l, p, k, j) == Reaches(l, p, k + 1, j));
  }

  /** The second level stops in the branch of source `s` exactly when `s` is
      pending, never returns, and no source tested before it stopped the
      handler; it returns exactly when no test stops it. */
  lemma {:induction false} DispatchEndingCases(l: Layout, p: bv32, k: nat, s: Source)
    requires k <= |ORDER|
    ensures DispatchEnding(l, p, k) == Halted(s)
            <==> Terminal(s) && k <= IndexOf(s) && Pending(l, p, s) && Reaches(l, p, k, IndexOf(s))
    ensures DispatchEnding(l, p, k) == Returned <==> Reaches(l, p, k, |ORDER|)
    decreases |ORDER| - k
  {
    if k < |ORDER| {
      if HaltsAt(l, p, k) {
        EndingWhenHalting(l, p, k, s);
      } else {
        DispatchEndingCases(l, p, k + 1, s);
        EndingWhenStepping(l, p, k, s);
      }
    }
  }

  /** DispatchEndingCases when the `k`-th test stops the handler. */
  lemma EndingWhenHalting(l: Layout, p: bv32, k: nat, s: Source)
    requires k < |ORDER| && HaltsAt(l, p, k)
    ensures DispatchEnding(l, p, k) == Halted(s)
            <==> Terminal(s) && k <= IndexOf(s) && Pending(l, p, s) && Reaches(l, p, k, IndexOf(s))
    ensures DispatchEnding(l, p, k) != Returned && !Reaches(l, p, k, |ORDER|)
  {
    OrderIndex(k);
    assert DispatchEnding(l, p, k) == Halted(ORDER[k]);
    assert IndexOf(s) > k ==> !Reaches(l, p, k, IndexOf(s));
  }

  /** DispatchEndingCases when the `k`-th test returns, from the same fact
      for the tests after it. */
  lemma EndingWhenStepping(l: Layout, p: bv32, k: nat, s: Source)
    requires k < |ORDER| && !HaltsAt(l, p, k)
    requires DispatchEnding(l, p, k + 1) == Halted(s)
             <==> Terminal(s) && k + 1 <= IndexOf(s) && Pending(l, p, s) && Reaches(l, p, k + 1, IndexOf(s))
    requires DispatchEnding(l, p, k + 1) == Returned <==> Reaches(l, p, k + 1, |ORDER|)
    ensures DispatchEnding(l, p, k) == Halted(s)
            <==> Terminal(s) && k <= IndexOf(s) && Pending(l, p, s) && Reaches(l, p, k, IndexOf(s))
    ensures DispatchEnding(l, p, k) == Returned <==> Reaches(l, p, k, |ORDER|)
  {
    OrderIndex(k);
    assert DispatchEnding(l, p, k) == DispatchEnding(l, p, k + 1);
    assert IndexOf(s) > k ==> Reaches(l, p, k, IndexOf(s)) == Reaches(l, p, k + 1, IndexOf(s));
    assert Reaches(l, p, k, |ORDER|) == Reaches(l, p, k + 1, |ORDER|);
  }

  /** A handler that stops has just cleared the flag of the source that
      stopped it; one that returns with unknown bits pending has just cleared
      them, in a single write. */
  lemma DispatchLastWrite(l: Layout, p: bv32, k: nat, t: seq<Event>)
    requires k <= |ORDER|
    ensures DispatchEnding(l, p, k).Halted? ==>
              var r := Dispatch(l, p, k, t);
              |r| > |t| && r[|r| - 1] == Ack(l, DispatchEnding(l, p, k).source)
    ensures DispatchEnding(l, p, k).Returned? && Unknown(l, p) != 0 ==>
              var r := Dispatch(l, p, k, t);
              |r| > |t| && r[|r| - 1] == Write(l.hwFlag, Unknown(l, p))
  {
    if DispatchEnding(l, p, k).Halted? {
      HaltedLastWrite(l, p, k, t, DispatchEnding(l, p, k).source);
    } else if Unknown(l, p) != 0 {
      ReturnedLastWrite(l, p, k, t);
    }
  }

  lemma {:induction false} HaltedLastWrite(l: Layout, p: bv32, k: nat, t: seq<Event>, s: Source)
    requires k <= |ORDER| && DispatchEnding(l, p, k) == Halted(s)
    ensures var r := Dispatch(l, p, k, t);
            |r| > |t| && r[|r| - 1] == Ack(l, s)
    decreases |ORDER| - k
  {
    if HaltsAt(l, p, k) {
      AckLogLast(l, ORDER[k], t);
    } else {
      DispatchStep(l, p, k, t);
      var t' := StepLog(l, p, k, t);
      HaltedLastWrite(l, p, k + 1, t', s);
      var rest := Dispatch(l, p, k + 1, t');
      LastWhenStepping(l, p, k, t, rest, Ack(l, s));
    }
  }

  lemma {:induction false} ReturnedLastWrite(l: Layout, p: bv32, k: nat, t: seq<Event>)
    requires k <= |ORDER| && DispatchEnding(l, p, k).Returned? && Unknown(l, p) != 0
    ensures var r := Dispatch(l, p, k, t);
            |r| > |t| && r[|r| - 1] == Write(l.hwFlag, Unknown(l, p))
    decreases |ORDER| - k
  {
    if k < |ORDER| {
      assert !HaltsAt(l, p, k);
      var t' := StepLog(l, p, k, t);
      ReturnedLastWrite(l, p, k + 1, t');
      var rest := Dispatch(l, p, k + 1, t');
      LastWhenStepping(l, p, k, t, rest, Write(l.hwFlag, Unknown(l, p)));
    } else {
      UnknownLogLast(l, p, t);
    }
  }

  lemma UnknownLogLast(l: Layout, p: bv32, t: seq<Event>)
    requires Unknown(l, p) != 0
    ensures var r := Dispatch(l, p, |ORDER|, t);
            |r| > |t| && r[|r| - 1] == Write(l.hwFlag, Unknown(l, p))
  {
    assert Dispatch(l, p, |ORDER|, t) == t + [Write(l.hwFlag, Unknown(l, p))];
  }

  /** When the `k`-th test returns, the handler ends in what the tests after
      it end in. */
  lemma LastWhenStepping(l: Layout, p: bv32, k: nat, t: seq<Event>, rest: seq<Event>, e: Event)
    requires k < |ORDER| && !HaltsAt(l, p, k)
    requires rest == Dispatch(l, p, k + 1, StepLog(l, p, k, t))
    requires |rest| > |StepLog(l, p, k, t)| && rest[|rest| - 1] == e
    ensures var r := Dispatch(l, p, k, t);
            |r| > |t| && r[|r| - 1] == e
  {
    var t' := StepLog(l, p, k, t);
    DispatchStep(l, p, k, t);
    StepLogWrites(l, p, k, t);
    LastCarries(Dispatch(l, p, k, t), rest, t', t, e);
  }

  /** A trace equal to one that ends in `e` past `t'` ends in `e` past any
      prefix `t` of `t'`. */
  lemma LastCarries(r: seq<Event>, r': seq<Event>, t': seq<Event>, t: seq<Event>, e: Event)
    requires r == r' && |r'| > |t'| && r'[|r'| - 1] == e && Extends(t', t)
    ensures |r| > |t| && r[|r| - 1] == e
  {
  }

  lemma AckLogLast(l: Layout, s: Source, t: seq<Event>)
    ensures |AckLog(l, s, t)| > |t| && AckLog(l, s, t)[|AckLog(l, s, t)| - 1] == Ack(l, s)
  {
    AckLogAdds(l, s, t);
  }

  // ---- the whole handler ----------------------------------------------------

  /** The processor interface flags the handler services. */
  function Serviced(piMask: bv32, piFlags: bv32): bv32
  {
    Masked(piFlags, piMask)
  }

  /** The handler writes BW_PI_IRQFLAG only to clear the reset button, and
      does so exactly when that interrupt is pending and enabled; it never
      clears the cascade bit there. Every other write belongs to the second
      level. */
  lemma HandleWrites(l: Layout, piMask: bv32, piFlags: bv32, hwMask: bv32, hwFlags: bv32, t: seq<Event>)
    requires WellFormed(l)
    ensures var r := Handle(l, piMask, piFlags, hwMask, hwFlags, t);
            && Extends(r, t)
            && (forall e :: e in r[|t|..] ==> SecondLevelWrite(l, e) || e == Write(l.piFlag, l.piReset))
            && (forall e :: e in r[|t|..] && e.Write? && e.addr == l.piFlag ==> !AnySet(e.value, l.piHw))
            && (Write(l.piFlag, l.piReset) in r[|t|..] <==> AnySet(Serviced(piMask, piFlags), l.piReset))
  {
    var rs := Registers(l);
    assert rs[0] != rs[2] && rs[0] != rs[5] && rs[0] != rs[6] && rs[0] != rs[7];
    HandleSplits(l, piMask, piFlags, hwMask, hwFlags, t);
  }

  /** The handler's writes are the reset-button clear, when it is serviced,
      then second-level writes only, none of them to BW_PI_IRQFLAG. */
  lemma HandleSplits(l: Layout, piMask: bv32, piFlags: bv32, hwMask: bv32, hwFlags: bv32, t: seq<Event>)
    requires l.piFlag != l.hwFlag && l.piFlag != l.nandCmd && l.piFlag != l.gpio1bIntFlag && l.piFlag != l.gpio1IntFlag
    requires Masked(l.piReset, l.piHw) == 0
    ensures var r := Handle(l, piMask, piFlags, hwMask, hwFlags, t);
            && Extends(r, t)
            && (forall e :: e in r[|t|..] ==> SecondLevelWrite(l, e) || e == Write(l.piFlag, l.piReset))
            && (forall e :: e in r[|t|..] && e.Write? && e.addr == l.piFlag ==> !AnySet(e.value, l.piHw))
            && (Write(l.piFlag, l.piReset) in r[|t|..] <==> AnySet(Serviced(piMask, piFlags), l.piReset))
  {
    var flags := Masked(piFlags, piMask);
    var top := TopLog(l, flags, t);
    var head: seq<Event> := if AnySet(flags, l.piReset) then [Write(l.piFlag, l.piReset)] else [];
    assert top == t + head;
    if AnySet(flags, l.piHw) {
      DispatchWrites(l, Masked(hwFlags, hwMask), 0, top);
    }
    HandleTail(l, piMask, piFlags, hwMask, hwFlags, t, top);
    var r := Handle(l, piMask, piFlags, hwMask, hwFlags, t);
    AfterHead(r, top, t, head);
    JoinParts(l, head, r[|top|..]);
  }

  lemma AfterHead(r: seq<Event>, top: seq<Event>, t: seq<Event>, head: seq<Event>)
    requires Extends(r, top) && top == t + head
    ensures Extends(r, t) && r[|t|..] == head + r[|top|..]
  {
    assert r[|t|..] == r[|t|..|top|] + r[|top|..];
  }

  lemma HandleTail(l: Layout, piMask: bv32, piFlags: bv32, hwMask: bv32, hwFlags: bv32, t: seq<Event>, top: seq<Event>)
    requires top == TopLog(l, Masked(piFlags, piMask), t)
    requires AnySet(Masked(piFlags, piMask), l.piHw) ==>
               var d := Dispatch(l, Masked(hwFlags, hwMask), 0, top);
               Extends(d, top) && forall e :: e in d[|top|..] ==> SecondLevelWrite(l, e)
    ensures var r := Handle(l, piMask, piFlags, hwMask, hwFlags, t);
            Extends(r, top) && forall e :: e in r[|top|..] ==> SecondLevelWrite(l, e)
  {
    if !AnySet(Masked(piFlags, piMask), l.piHw) {
      assert Handle(l, piMask, piFlags, hwMask, hwFlags, t)[|top|..] == [];
    }
  }

  /** The reset-button clear, when there is one, then second-level writes. */
  lemma JoinParts(l: Layout, head: seq<Event>, tail: seq<Event>)
    requires l.piFlag != l.hwFlag && l.piFlag != l.nandCmd && l.piFlag != l.gpio1bIntFlag && l.piFlag != l.gpio1IntFlag
    requires Masked(l.piReset, l.piHw) == 0
    requires head == [] || head == [Write(l.piFlag, l.piReset)]
    requires forall e :: e in tail ==> SecondLevelWrite(l, e)
    ensures forall e :: e in head + tail ==> SecondLevelWrite(l, e) || e == Write(l.piFlag, l.piReset)
    ensures forall e :: e in head + tail && e.Write? && e.addr == l.piFlag ==> !AnySet(e.value, l.piHw)
    ensures Write(l.piFlag, l.piReset) in head + tail <==> head != []
  {
    assert !SecondLevelWrite(l, Write(l.piFlag, l.piReset));
  }

  /** The handler clears the flag of Hollywood source `s` exactly when the
      cascade interrupt is serviced, `s` is pending and enabled, and no source
      tested before it stopped the handler. */
  lemma HandleAcks(l: Layout, piMask: bv32, piFlags: bv32, hwMask: bv32, hwFlags: bv32, t: seq<Event>, s: Source)
    requires WellFormed(l)
    ensures var r := Handle(l, piMask, piFlags, hwMask, hwFlags, t);
            var p := Masked(hwFlags, hwMask);
            Ack(l, s) in r[|t|..]
            <==> AnySet(Serviced(piMask, piFlags), l.piHw) && Pending(l, p, s) && Reaches(l, p, 0, IndexOf(s))
  {
    var rs := Registers(l);
    assert rs[0] != rs[2];
    var flags := Masked(piFlags, piMask);
    var top := TopLog(l, flags, t);
    var r := Handle(l, piMask, piFlags, hwMask, hwFlags, t);
    if AnySet(flags, l.piReset) {
      assert top[|t|..] == [Write(l.piFlag, l.piReset)];
    } else {
      assert top[|t|..] == [];
    }
    if AnySet(flags, l.piHw) {
      var p := Masked(hwFlags, hwMask);
      WellFormedSeparated(l);
      DispatchAcks(l, p, 0, top, s);
      AddedSplit(r, top, t);
    } else {
      assert r == top;
    }
  }

  /** A Hollywood source whose HW_PPCIRQMASK bit is clear is never acknowledged. */
  lemma MaskedSourceIgnored(l: Layout, piMask: bv32, piFlags: bv32, hwMask: bv32, hwFlags: bv32, t: seq<Event>, s: Source)
    requires WellFormed(l) && !AnySet(hwMask, l.irqf(s))
    ensures Ack(l, s) !in Handle(l, piMask, piFlags, hwMask, hwFlags, t)[|t|..]
  {
    HandleAcks(l, piMask, piFlags, hwMask, hwFlags, t, s);
    MaskedOut(hwFlags, hwMask, l.irqf(s));
  }

  /** After irq_hw_disable of a source's line the handler leaves that
      source's flag alone. */
  lemma DisabledLineIgnored(l: Layout, piMask: bv32, piFlags: bv32, mask: bv32, irq: bv32, hwFlags: bv32, t: seq<Event>, s: Source)
    requires WellFormed(l) && irq < 32 && l.irqf(s) == Bit(irq)
    ensures Ack(l, s) !in Handle(l, piMask, piFlags, WithoutBit(mask, irq), hwFlags, t)[|t|..]
  {
    DisableClearsOneBit(mask, irq);
    MaskedSourceIgnored(l, piMask, piFlags, WithoutBit(mask, irq), hwFlags, t, s);
  }

  /** How the handler ends: it stops in the TIMER or OHCI0 branch exactly when
      that source is pending, enabled and reached, and the stopping branch's
      flag write is its last action. */
  lemma HandleEndingCases(l: Layout, piMask: bv32, piFlags: bv32, hwMask: bv32, hwFlags: bv32, t: seq<Event>, s: Source)
    ensures var p := Masked(hwFlags, hwMask);
            HandleEnding(l, piMask, piFlags, hwMask, hwFlags) == Halted(s)
            <==> AnySet(Serviced(piMask, piFlags), l.piHw) && Terminal(s) && Pending(l, p, s) && Reaches(l, p, 0, IndexOf(s))
    ensures HandleEnding(l, piMask, piFlags, hwMask, hwFlags) == Halted(s) ==>
              var r := Handle(l, piMask, piFlags, hwMask, hwFlags, t);
              |r| > |t| && r[|r| - 1] == Ack(l, s)
  {
    var flags := Masked(piFlags, piMask);
    var p := Masked(hwFlags, hwMask);
    DispatchEndingCases(l, p, 0, s);
    DispatchLastWrite(l, p, 0, TopLog(l, flags, t));
    var top := TopLog(l, flags, t);
    assert |top| >= |t|;
  }

  /** With BW_PI_IRQMASK clear, the handler does nothing and returns. */
  lemma HandleQuietWhenMasked(l: Layout, piFlags: bv32, hwMask: bv32, hwFlags: bv32, t: seq<Event>)
    ensures Handle(l, 0, piFlags, hwMask, hwFlags, t) == t
    ensures HandleEnding(l, 0, piFlags, hwMask, hwFlags) == Returned
  {
  }

  /** Right after irq_initialize, whatever the flag registers say, an
      interrupt handled before any line is enabled changes nothing. */
  lemma InitializedHandlerIsQuiet(l: Layout, m: map<Addr, bv32>, t: seq<Event>, piFlags: bv32, hwFlags: bv32)
    requires WellFormed(l)
    ensures var regs := Replay(m, InitializeLog(l, t));
            var t' := InitializeLog(l, t);
            && Handle(l, Peek(regs, l.piMask), piFlags, Peek(regs, l.hwMask), hwFlags, t') == t'
            && HandleEnding(l, Peek(regs, l.piMask), piFlags, Peek(regs, l.hwMask), hwFlags) == Returned
  {
    InitializeMasksAll(l, m, t);
    var regs := Replay(m, InitializeLog(l, t));
    HandleQuietWhenMasked(l, piFlags, Peek(regs, l.hwMask), hwFlags, InitializeLog(l, t));
  }
}
