/** What an accepted command satisfies, said of the command and the disk themselves, and
    that a finished command is delivered even when its interrupt is lost. */
module AhciRequests {
  import opened Objects
  import opened Prdt
  import opened Ahci
  import opened AhciRuns

  // -------------------------------------------------------------- acceptance

  /** Up, available and in asynchronous mode. */
  predicate Async(d: Disk)
  {
    d.reset == Running && !d.unavailable && d.asyncEnabled && d.msiEnabled
  }

  /** How many descriptors of at most 4 MiB the segments need. */
  function Pieces(segments: seq<Region>): nat
  {
    if segments == [] then 0 else (segments[0].length + PRDT_MAX_BYTES - 1) / PRDT_MAX_BYTES + Pieces(segments[1..])
  }

  /** A place in memory the controller can reach. */
  predicate Reachable(segment: Region, supports64: bool)
  {
    && segment.length > 0 && segment.address + segment.length < U64_SPAN
    && (supports64 || segment.address + segment.length <= 0x1_0000_0000)
  }

  /** A read or write of whole sectors, on the disk, with memory for exactly its bytes. */
  predicate DataFits(d: Disk, c: Command)
  {
    && c.byteLen > 0 && c.byteLen % 512 == 0 && c.byteLen / 512 <= 65536
    && c.lba < 0x1_0000_0000_0000 && c.lba + c.byteLen / 512 <= d.config.capacity
    && 0 < |c.segments| <= d.config.maxSegments && Bytes(c.segments) == c.byteLen && Pieces(c.segments) <= 32
    && forall k :: 0 <= k < |c.segments| ==> Reachable(c.segments[k], d.config.supports64)
  }

  /** A flush the disk knows, with nothing in flight and nothing to transfer. */
  predicate FlushFits(d: Disk, c: Command)
  {
    && d.config.flushSupported && d.issued == {} && c.byteLen == 0 && c.segments == []
    && c.lba < 0x1_0000_0000_0000 && c.lba <= d.config.capacity
  }

  predicate WellFormed(d: Disk, c: Command)
  {
    if c.operation == Flush || c.operation == Barrier then FlushFits(d, c) else !d.exclusive && DataFits(d, c)
  }

  /** The lowest free slot of the port. */
  ghost predicate LowestFree(d: Disk, i: nat)
    requires Wf(d)
  {
    i < d.config.slotCount && d.slots[i].state == Free && forall k :: 0 <= k < i ==> d.slots[k].state != Free
  }

  /** Nothing goes wrong on the way to the hardware, and it does not still hold the slot. */
  predicate HardwareTakes(hw: SubmitHw, i: nat)
  {
    hw.table.None? && hw.port.None? && hw.busy.Some? && i !in hw.busy.value
  }

  /** The command sits in slot `i`; all other slots, the ring and the countdown are as before.
      A command that could not be issued leaves the port resetting. */
  predicate Placed(d: Disk, d': Disk, c: Command, i: nat, issued: bool)
    requires Wf(d) && i < d.config.slotCount
  {
    && d'.slots == d.slots[i := Slot(Active, Some(c.token), c.operation, c.byteLen)]
    && d'.issued == d.issued + {i} && d'.inFlight == d.inFlight + 1
    && d'.exclusive == (c.operation == Flush || c.operation == Barrier)
    && d'.ring == d.ring && d'.countdown == d.countdown && d'.config == d.config
    && (d'.unavailable, d'.asyncEnabled, d'.msiEnabled) == (d.unavailable, d.asyncEnabled, d.msiEnabled)
    && d'.reset == (if issued then Running else StopRequested)
    && d'.resetWatchdog == if issued then d.resetWatchdog else RESET_WATCHDOG_POLLS
  }

  lemma {:induction false} SplitPieces(address: nat, length: nat)
    ensures |Split(address, length)| == (length + PRDT_MAX_BYTES - 1) / PRDT_MAX_BYTES
    decreases length
  {
    if length > 0 {
      var n := Least(length, PRDT_MAX_BYTES);
      SplitPieces(address + n, length - n);
      LessOnePiece(length, n);
    }
  }

  lemma LessOnePiece(length: nat, n: nat)
    requires length > 0 && n == Least(length, PRDT_MAX_BYTES)
    ensures (length + PRDT_MAX_BYTES - 1) / PRDT_MAX_BYTES == 1 + (length - n + PRDT_MAX_BYTES - 1) / PRDT_MAX_BYTES
  {
  }

  lemma {:induction false} PlanPieces(segments: seq<Region>)
    ensures |Plan(segments)| == Pieces(segments)
  {
    if segments != [] {
      PlanPieces(segments[1..]);
      SplitPieces(segments[0].address, segments[0].length);
    }
  }

  lemma AcceptableIsSpelledOut(c: Command, d: Disk)
    requires c.byteLen > 0
    ensures PlanError(c.segments, c.byteLen, d.config.supports64, d.config.maxSegments).None? <==>
      && 0 < |c.segments| <= d.config.maxSegments && Bytes(c.segments) == c.byteLen && Pieces(c.segments) <= 32
      && forall k :: 0 <= k < |c.segments| ==> Reachable(c.segments[k], d.config.supports64)
  {
    PlanPieces(c.segments);
    PlanErrorIsExact(c.segments, c.byteLen, d.config.supports64, d.config.maxSegments);
  }

  lemma RequestIsWellFormed(d: Disk, c: Command)
    ensures RequestError(d, c).None? <==> Async(d) && WellFormed(d, c)
  {
    if c.byteLen > 0 { AcceptableIsSpelledOut(c, d); }
  }

  lemma LowestFreeIsFirst(d: Disk)
    requires Wf(d)
    ensures forall i: nat :: LowestFree(d, i) <==> FirstFree(d.slots, d.config.slotCount, 0) == Some(i)
  {
  }

  ghost predicate Takes(d: Disk, c: Command, hw: SubmitHw, i: nat)
    requires Wf(d)
  {
    Async(d) && WellFormed(d, c) && LowestFree(d, i) && HardwareTakes(hw, i)
  }

  /** A command is accepted exactly when the port is up, the command is well formed, a slot
      is free, and the hardware takes it; and then it sits in that slot and nowhere else. */
  lemma AcceptedExactly(d: Disk, c: Command, hw: SubmitHw)
    requires Wf(d)
    ensures AfterSubmit(d, c, hw).1 == Accepted <==> exists i: nat :: Takes(d, c, hw, i)
    ensures forall i: nat :: Takes(d, c, hw, i) ==> Placed(d, AfterSubmit(d, c, hw).0, c, i, hw.issueOk)
    ensures AfterSubmit(d, c, hw).1 != Accepted ==>
      AfterSubmit(d, c, hw).0 == d || (hw.port.Some? && AfterSubmit(d, c, hw).0 == StartReset(d))
  {
    RequestIsWellFormed(d, c);
    LowestFreeIsFirst(d);
    var free := FirstFree(d.slots, d.config.slotCount, 0);
    if AfterSubmit(d, c, hw).1 == Accepted { assert Takes(d, c, hw, free.value); }
  }

  /** What an ill-formed command is told: the first of these reasons. */
  lemma RequestRefusals(d: Disk, c: Command)
    ensures
      var error, flush := RequestError(d, c), c.operation == Flush || c.operation == Barrier;
      var sectors := c.byteLen / 512;
      var shaped := if flush then d.issued == {} && c.byteLen == 0 && c.segments == []
                    else c.byteLen > 0 && c.byteLen % 512 == 0;
      if !Async(d) then
        error == Some(if d.reset != Running then DeviceReset else if d.unavailable then DeviceUnavailable
                      else AsyncNotEnabled)
      else if flush && !d.config.flushSupported then error == Some(UnsupportedDevice)
      else if !flush && d.exclusive then error == Some(QueueFull)
      else if !shaped then error == Some(InvalidRequest)
      else if sectors > 65536 || c.lba >= 0x1_0000_0000_0000 then error == Some(InvalidTransfer)
      else if c.lba + sectors > d.config.capacity then error == Some(OutOfBounds)
      else error.Some? ==> !flush && error.value.Segments?
  {
  }

  /** Over every run a command accepted for data lies on the disk. */
  lemma AcceptedLiesOnDisk(d: Disk, events: seq<Event>, c: Command, hw: SubmitHw)
    requires Inv(d) && Step(Run(d, events), Submit(c, hw)).1 == Accepted
    ensures c.lba + c.byteLen / 512 <= d.config.capacity && Bytes(c.segments) == c.byteLen
  {
    RunKeepsConfig(d, events);
    AcceptedExactly(Run(d, events), c, hw);
  }

  lemma {:induction false} RunKeepsConfig(d: Disk, events: seq<Event>)
    requires Wf(d)
    ensures Run(d, events).config == d.config
    decreases |events|
  {
    if events != [] { RunKeepsConfig(Step(d, events[0]).0, events[1..]); }
  }

  /** Cancelling a command in flight starts a reset; cancelling anything else does nothing. */
  lemma CancelIsExact(d: Disk, token: Token)
    requires Wf(d)
    ensures
      var after := AfterCancel(d, token);
      var known := exists i ::
        0 <= i < d.config.slotCount && d.slots[i].state == Active && d.slots[i].token == Some(token);
      && (after.1 == Settled <==> Async(d))
      && after.0 == if Async(d) && known then d.(reset := StopRequested, resetWatchdog := RESET_WATCHDOG_POLLS) else d
  {
  }

  // ------------------------------------------------------------ ready and faulty

  lemma PollReadyIsExact(d: Disk)
    ensures PollReady(d) == Settled <==> Async(d) && !d.exclusive && d.inFlight + |d.ring| < d.config.slotCount
    ensures PollReady(d) == Waiting <==> Async(d) && (d.exclusive || d.inFlight + |d.ring| >= d.config.slotCount)
  {
  }

  lemma {:induction false} FirstNumbers(n: nat) returns (s: set<nat>)
    ensures |s| == n && forall i: nat :: i in s <==> i < n
  {
    s := {};
    if n > 0 {
      s := FirstNumbers(n - 1);
      s := s + {n - 1};
    }
  }

  /** While fewer commands are in flight than there are slots, one slot is free. */
  lemma SomeSlotIsFree(d: Disk) returns (i: nat)
    requires Core(d) && d.inFlight < d.config.slotCount
    ensures LowestFree(d, i)
  {
    var all := FirstNumbers(d.config.slotCount);
    if all <= d.issued { Shrinks(all, d.issued); }
    var k :| k in all && k !in d.issued;
    assert SlotAgrees(d, k);
    LowestFreeIsFirst(d);
    i := FirstFree(d.slots, d.config.slotCount, 0).value;
  }

  /** A port that reports ready takes any well-formed read or write the hardware has room for. */
  lemma ReadyMeansAccepted(d: Disk, c: Command, hw: SubmitHw)
    requires Inv(d) && PollReady(d) == Settled && !IsFlush(c.operation) && DataFits(d, c)
    requires forall i: nat :: i < d.config.slotCount && i !in d.issued ==> HardwareTakes(hw, i)
    ensures AfterSubmit(d, c, hw).1 == Accepted
  {
    var i := SomeSlotIsFree(d);
    assert SlotAgrees(d, i);
    assert Takes(d, c, hw, i);
    AcceptedExactly(d, c, hw);
  }

  /** What a poll that looks at the port does when something goes wrong: a fault of the port,
      an error interrupt or a failed re-arm starts a reset; a register that cannot be read
      changes nothing. */
  lemma PollFaultsAreExact(d: Disk, interrupted: bool, hw: DrainHw)
    requires Inv(d) && Fits(d) && Async(d) && (interrupted || (d.issued != {} && d.countdown <= 1))
    ensures
      var (after, outcome) := AfterPoll(d, interrupted, hw);
      match hw
      case PortFails(fault) =>
        outcome == Failed(Hardware(fault)) && after.reset == StopRequested && after.slots == d.slots
      case AccessFails =>
        outcome == Failed(Hardware(AccessFailed)) && after.reset == Running && after.slots == d.slots
      case ErrorInterrupt =>
        outcome == Failed(InterfaceError) && after.reset == StopRequested && after.slots == d.slots
      case Registers(_, _, rearmOk) =>
        if rearmOk then !outcome.Failed? && after.reset == Running
        else outcome == Failed(DeviceUnavailable) && after.reset == StopRequested
  {
    TickWorks(d, interrupted);
    if hw.Registers? {
      var ticked := d.(countdown := Watch(d, interrupted).1);
      DrainWorks(ticked, hw.(rearmOk := true), 0, 0);
      DrainKeepsFits(ticked, hw);
    }
  }

  /** A reset poll settles exactly when the reset is complete, waits exactly while it is under
      way, and fails exactly when the port is, or becomes, isolated: for want of time or
      because an access failed. Both engines must be seen stopped, CR first. */
  lemma PollResetIsExact(d: Disk, hw: ResetHw)
    requires Wf(d)
    ensures
      var (after, outcome) := AfterPollReset(d, hw);
      var underway := d.reset != Complete && d.reset != Isolated;
      var late := d.reset != Running && d.resetWatchdog == 0;
      && (outcome == Settled <==> after.reset == Complete) && (outcome.Failed? <==> after.reset == Isolated)
      && (outcome == Waiting <==> after.reset in {StopRequested, WaitingForCr, WaitingForFr})
      && (d.reset == Isolated || (underway && late) ==> outcome == Failed(DmaStopUnproved))
      && (underway && !late && hw.Broken? ==> outcome == Failed(Hardware(AccessFailed)))
      && (underway && !late && hw.Value? ==>
            && (d.reset in {Running, StopRequested} ==> after.reset == if hw.writeOk then WaitingForCr else Isolated)
            && (d.reset == WaitingForCr ==>
                  after.reset == if hw.command.cr then WaitingForCr else if hw.writeOk then WaitingForFr else Isolated)
            && (d.reset == WaitingForFr ==>
                  after.reset == if hw.command.cr || hw.command.fr then WaitingForFr else Complete))
      && (underway && after.reset in {Complete, Isolated} ==> after.unavailable && !after.asyncEnabled)
      && (underway && after.reset == Complete ==> after.issued == {} && after.ring == [] && after.inFlight == 0)
  {
  }

  // --------------------------------------------------- when interrupts are lost

  /** A poll whose registers show slot `k` clear and through which nothing goes wrong. */
  predicate ShowsClear(e: Event, k: nat)
  {
    e.Poll? && e.drainHw.Registers? && k !in e.drainHw.sact && k !in e.drainHw.ci && e.drainHw.rearmOk
  }

  /** In working order, with a place in the ring for everything in flight. */
  ghost predicate Working(d: Disk)
  {
    Inv(d) && Fits(d) && Async(d)
  }

  lemma {:induction false} RetireFromDelivers(d: Disk, completed: set<nat>, i: nat, k: nat, t: Token)
    requires Core(d) && Fits(d) && d.reset == Running && From(completed, i) <= d.issued
    requires |d.ring| + |From(completed, i)| <= d.config.slotCount
    requires t in d.ring || (k in completed && i <= k && k in d.issued && d.slots[k].token == Some(t))
    ensures t in RetireFrom(d, completed, i).0.ring
    ensures d.ring <= RetireFrom(d, completed, i).0.ring
    decreases d.config.slotCount - i
  {
    FromSplits(completed, i);
    if i >= d.config.slotCount {
      assert k < MAX_SLOTS ==> SlotAgrees(d, k);
    } else if i !in completed {
      RetireFromDelivers(d, completed, i + 1, k, t);
    } else {
      assert i in From(completed, i);
      assert SlotAgrees(d, i);
      RetireKeepsCore(d, i);
      RetireFromDelivers(Retire(d, i), completed, i + 1, k, t);
    }
  }

  /** A poll through which nothing goes wrong. */
  predicate Healthy(e: Event) { e.Poll? && e.drainHw.Registers? && e.drainHw.rearmOk }

  /** Some event of the run delivers the token. */
  predicate Delivers(d: Disk, events: seq<Event>, t: Token)
    requires Wf(d)
    decreases |events|
  {
    events != [] && (Step(d, events[0]).1 == Delivered(t) || Delivers(Step(d, events[0]).0, events[1..], t))
  }

  /** What draining does to a working port: all finished commands join the ring. */
  lemma DrainWorks(d: Disk, hw: DrainHw, k: nat, t: Token)
    requires Working(d) && hw.Registers? && hw.rearmOk
    ensures Drain(d, hw).1.None? && Async(Drain(d, hw).0) && d.ring <= Drain(d, hw).0.ring
    ensures k in d.issued && k !in hw.sact && k !in hw.ci && d.slots[k].token == Some(t) ==> t in Drain(d, hw).0.ring
  {
    var completed := Completed(d.issued, hw.sact, hw.ci);
    Shrinks(completed, d.issued);
    assert From(completed, 0) == completed;
    assert k in d.issued && k !in hw.sact && k !in hw.ci ==> k in completed;
    if completed != {} {
      RetireFromKeepsCore(d, completed, 0);
      RetireFromKeepsMode(d, completed, 0);
      if k in completed && k < MAX_SLOTS && d.slots[k].token == Some(t) {
        RetireFromDelivers(d, completed, 0, k, t);
      } else {
        RetireFromOnlyAdds(d, completed, 0);
      }
    }
  }

  lemma {:induction false} RetireFromOnlyAdds(d: Disk, completed: set<nat>, i: nat)
    requires Wf(d) && d.reset == Running
    ensures d.ring <= RetireFrom(d, completed, i).0.ring
    decreases d.config.slotCount - i
  {
    if i < d.config.slotCount {
      if i !in completed {
        RetireFromOnlyAdds(d, completed, i + 1);
      } else if d.slots[i].token.Some? && |d.ring| < d.config.slotCount {
        RetireFromOnlyAdds(Retire(d, i), completed, i + 1);
      }
    }
  }

  lemma {:induction false} RetireFromKeepsMode(d: Disk, completed: set<nat>, i: nat)
    requires Wf(d) && d.reset == Running
    ensures
      var after := RetireFrom(d, completed, i).0;
      after.unavailable == d.unavailable && after.asyncEnabled == d.asyncEnabled && after.msiEnabled == d.msiEnabled
    decreases d.config.slotCount - i
  {
    if i < d.config.slotCount {
      if i !in completed {
        RetireFromKeepsMode(d, completed, i + 1);
      } else if d.slots[i].token.Some? && |d.ring| < d.config.slotCount {
        RetireFromKeepsMode(Retire(d, i), completed, i + 1);
      }
    }
  }

  lemma PollWorks(d: Disk, e: Event)
    requires Working(d) && Healthy(e)
    ensures Working(Step(d, e).0)
  {
    StepKeepsInv(d, e);
    StepKeepsFits(d, e);
    TickWorks(d, e.interrupted);
    DrainWorks(d.(countdown := Watch(d, e.interrupted).1), e.drainHw, 0, 0);
  }

  lemma TickWorks(d: Disk, interrupted: bool)
    requires Working(d)
    ensures Working(d.(countdown := Watch(d, interrupted).1))
  {
    SameSlotsKeepCore(d, d.(countdown := Watch(d, interrupted).1));
  }

  /** A token in the ring moves up by one with every poll. */
  lemma RingMovesUp(d: Disk, e: Event, p: nat)
    requires Working(d) && Healthy(e) && p < |d.ring|
    ensures p == 0 ==> Step(d, e).1 == Delivered(d.ring[0])
    ensures p > 0 ==> p - 1 < |Step(d, e).0.ring| && Step(d, e).0.ring[p - 1] == d.ring[p]
  {
    TickWorks(d, e.interrupted);
    DrainWorks(d.(countdown := Watch(d, e.interrupted).1), e.drainHw, 0, 0);
  }

  lemma {:induction false} RingIsDelivered(d: Disk, polls: seq<Event>, p: nat)
    requires Working(d) && p < |d.ring| && p < |polls| && forall i :: 0 <= i < |polls| ==> Healthy(polls[i])
    ensures Delivers(d, polls, d.ring[p])
    decreases |polls|
  {
    RingMovesUp(d, polls[0], p);
    if p > 0 {
      PollWorks(d, polls[0]);
      RingIsDelivered(Step(d, polls[0]).0, polls[1..], p - 1);
    }
  }

  /** How many polls pass at most until one looks at the registers, interrupt or not. */
  function PollsToLook(d: Disk): nat { if d.countdown > 1 then d.countdown else 1 }

  /** One poll brings the token into the ring or delivers it, or the next look nearer. */
  lemma PollApproaches(d: Disk, e: Event, k: nat, t: Token)
    requires Working(d) && Healthy(e) && ShowsClear(e, k) && k in d.issued && d.slots[k].token == Some(t)
    ensures
      var after := Step(d, e);
      || after.1 == Delivered(t) || t in after.0.ring
      || (PollsToLook(after.0) < PollsToLook(d) && k in after.0.issued && after.0.slots[k].token == Some(t))
  {
    TickWorks(d, e.interrupted);
    var ticked := d.(countdown := Watch(d, e.interrupted).1);
    DrainWorks(ticked, e.drainHw, k, t);
    var ring := Drain(ticked, e.drainHw).0.ring;
    if Watch(d, e.interrupted).0 && ring[0] != t { assert ring == [ring[0]] + ring[1..]; }
  }

  /** Once a command has finished, polling delivers it, interrupts or not: within as many
      polls as the countdown lasts, and one more for each completion waiting before it. */
  lemma {:induction false} FinishedIsDelivered(d: Disk, polls: seq<Event>, k: nat, t: Token)
    requires Working(d) && k in d.issued && k < MAX_SLOTS && d.slots[k].token == Some(t)
    requires |polls| >= PollsToLook(d) + d.config.slotCount
    requires forall i :: 0 <= i < |polls| ==> ShowsClear(polls[i], k)
    ensures Delivers(d, polls, t)
    decreases |polls|
  {
    assert ShowsClear(polls[0], k);
    PollApproaches(d, polls[0], k, t);
    PollWorks(d, polls[0]);
    var next := Step(d, polls[0]);
    if next.1 != Delivered(t) {
      if t in next.0.ring {
        var p :| 0 <= p < |next.0.ring| && next.0.ring[p] == t;
        forall i | 0 <= i < |polls[1..]| ensures Healthy(polls[1..][i]) { assert ShowsClear(polls[i + 1], k); }
        RingIsDelivered(next.0, polls[1..], p);
      } else {
        FinishedIsDelivered(next.0, polls[1..], k, t);
      }
    }
  }
}
