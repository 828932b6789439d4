/** What every run of the AHCI driver keeps, whatever the hardware answers. */
module AhciRuns {
  import opened Objects
  import opened Ahci

  // --------------------------------------------------------- slot accounting

  ghost predicate SlotAgrees(d: Disk, i: nat)
    requires Wf(d) && i < MAX_SLOTS
  {
    && (i in d.issued <==> d.slots[i].state != Free)
    && (i in d.issued <==> d.slots[i].token.Some?)
    && (i in d.issued ==> i < d.config.slotCount)
    && (i in d.issued ==> d.slots[i].state == if d.reset == Isolated then Quarantined else Active)
    && (i in d.issued && IsFlush(d.slots[i].operation) ==> d.exclusive && d.issued == {i})
  }

  /** The issued mask, the slots and the in-flight count agree, and a flush is alone. */
  ghost predicate Core(d: Disk)
  {
    && Wf(d)
    && |d.ring| <= d.config.slotCount
    && (forall i :: 0 <= i < MAX_SLOTS ==> SlotAgrees(d, i))
    && (forall i :: i in d.issued ==> i < MAX_SLOTS)
    && d.inFlight == |d.issued|
    && d.resetWatchdog <= RESET_WATCHDOG_POLLS
    && (d.reset == Complete ==> d.issued == {})
  }

  /** Between calls the exclusive flag is never left behind by a finished flush. */
  ghost predicate Inv(d: Disk)
  {
    Core(d) && (d.reset == Running && d.exclusive ==> d.issued != {})
  }

  lemma InitialInv(d: Disk)
    requires Initial(d)
    ensures Inv(d)
  {
  }

  lemma ActivateKeepsCore(d: Disk, c: Command, i: nat)
    requires Core(d) && d.reset == Running && i < d.config.slotCount && d.slots[i].state == Free
    requires if IsFlush(c.operation) then d.issued == {} else !d.exclusive
    ensures Core(Activate(d, c, i)) && Activate(d, c, i).issued != {}
  {
    var e := Activate(d, c, i);
    assert SlotAgrees(d, i);
    forall k | 0 <= k < MAX_SLOTS ensures SlotAgrees(e, k) {
      assert SlotAgrees(d, k);
    }
    assert i in e.issued;
  }

  lemma RetireKeepsCore(d: Disk, i: nat)
    requires Core(d) && i in d.issued && d.reset == Running && |d.ring| < d.config.slotCount
    ensures i < MAX_SLOTS && d.slots[i].token.Some? && Core(Retire(d, i))
  {
    assert SlotAgrees(d, i);
    var e := Retire(d, i);
    assert d.issued == e.issued + {i};
    forall k | 0 <= k < MAX_SLOTS ensures SlotAgrees(e, k) {
      assert SlotAgrees(d, k);
    }
  }

  ghost function From(completed: set<nat>, i: nat): set<nat>
  {
    set j | j in completed && j >= i
  }

  lemma FromSplits(completed: set<nat>, i: nat)
    ensures From(completed, i) == if i in completed then From(completed, i + 1) + {i} else From(completed, i + 1)
    ensures |From(completed, i)| == |From(completed, i + 1)| + if i in completed then 1 else 0
  {
    assert From(completed, i) == if i in completed then From(completed, i + 1) + {i} else From(completed, i + 1);
  }

  /** Retiring stops early exactly when the ring has too little room for all of them. */
  lemma {:induction false} RetireFromKeepsCore(d: Disk, completed: set<nat>, i: nat)
    requires Core(d) && d.reset == Running && From(completed, i) <= d.issued
    ensures Core(RetireFrom(d, completed, i).0)
    ensures RetireFrom(d, completed, i).1 ==
      if |d.ring| + |From(completed, i)| <= d.config.slotCount then None else Some(CompletionQueueFull)
    ensures RetireFrom(d, completed, i).1.None? ==> RetireFrom(d, completed, i).0.reset == Running
    ensures RetireFrom(d, completed, i).1.Some? ==> RetireFrom(d, completed, i).0.reset == StopRequested
    ensures RetireFrom(d, completed, i).0.config == d.config
    decreases d.config.slotCount - i
  {
    FromSplits(completed, i);
    if i >= d.config.slotCount {
      forall j | j in d.issued ensures j < d.config.slotCount { assert SlotAgrees(d, j); }
      assert From(completed, i) == {};
    } else if i !in completed {
      RetireFromKeepsCore(d, completed, i + 1);
    } else {
      assert i in From(completed, i);
      assert SlotAgrees(d, i);
      if |d.ring| < d.config.slotCount {
        RetireKeepsCore(d, i);
        RetireFromKeepsCore(Retire(d, i), completed, i + 1);
      } else {
        ResetKeepsCore(d);
      }
    }
  }

  lemma ResetKeepsCore(d: Disk)
    requires Core(d)
    ensures Core(StartReset(d)) && StartReset(d).reset != Running && StartReset(d).config == d.config
  {
    forall k | 0 <= k < MAX_SLOTS ensures SlotAgrees(StartReset(d), k) { assert SlotAgrees(d, k); }
  }

  /** Changes outside the slots, the mask and the reset state. */
  lemma SameSlotsKeepCore(d: Disk, e: Disk)
    requires Core(d) && e.config == d.config && e.slots == d.slots && e.issued == d.issued && e.inFlight == d.inFlight
    requires d.reset != Isolated && e.reset != Isolated && e.reset != Complete
    requires (d.exclusive && d.issued != {} ==> e.exclusive)
    requires |e.ring| <= |d.ring| && e.resetWatchdog <= RESET_WATCHDOG_POLLS
    ensures Core(e)
  {
    forall k | 0 <= k < MAX_SLOTS ensures SlotAgrees(e, k) { assert SlotAgrees(d, k); }
  }

  lemma PopKeepsInv(d: Disk, otherwise: Outcome)
    requires Inv(d)
    ensures Inv(Pop(d, otherwise).0)
  {
    var e := Pop(d, otherwise).0;
    forall k | 0 <= k < MAX_SLOTS ensures SlotAgrees(e, k) { assert SlotAgrees(d, k); }
  }

  /** Completions are exactly the issued slots seen clear in both registers, and the
      completion ring overflows exactly when they do not all fit. */
  lemma RetireAllKeepsInv(d: Disk, completed: set<nat>, rearmOk: bool)
    requires Inv(d) && d.reset == Running && completed <= d.issued
    ensures Inv(RetireAll(d, completed, rearmOk).0)
    ensures RetireAll(d, completed, rearmOk).1 == Some(CompletionQueueFull) <==>
      |d.ring| + |completed| > d.config.slotCount
    ensures RetireAll(d, completed, rearmOk).1 != Some(InvalidRequest)
  {
    assert From(completed, 0) == completed;
    ResetKeepsCore(d);
    if completed != {} {
      RetireFromKeepsCore(d, completed, 0);
      var after := RetireFrom(d, completed, 0);
      if after.1.None? {
        var quiet := after.0.(exclusive := after.0.exclusive && after.0.issued != {});
        SameSlotsKeepCore(after.0, quiet);
        ResetKeepsCore(quiet);
      }
    }
  }

  lemma {:induction false} RetireFromSpares(d: Disk, completed: set<nat>, i: nat, k: nat)
    requires Wf(d) && d.reset == Running && k < MAX_SLOTS && k !in completed
    ensures RetireFrom(d, completed, i).0.slots[k] == d.slots[k]
    ensures k in RetireFrom(d, completed, i).0.issued <==> k in d.issued
    decreases d.config.slotCount - i
  {
    if i < d.config.slotCount {
      if i !in completed {
        RetireFromSpares(d, completed, i + 1, k);
      } else if d.slots[i].token.Some? && |d.ring| < d.config.slotCount {
        RetireFromSpares(Retire(d, i), completed, i + 1, k);
      }
    }
  }

  lemma DrainRetiresOnlyClear(d: Disk, hw: DrainHw, k: nat)
    requires Wf(d) && d.reset == Running && k in d.issued && k < MAX_SLOTS
    requires hw.Registers? ==> k in hw.sact || k in hw.ci
    ensures k in Drain(d, hw).0.issued && Drain(d, hw).0.slots[k] == d.slots[k]
  {
    if hw.Registers? { RetireFromSpares(d, Completed(d.issued, hw.sact, hw.ci), 0, k); }
  }

  /** A poll takes a command out of its slot only when SACT and CI both read clear. */
  lemma PollRetiresOnlyClear(d: Disk, interrupted: bool, hw: DrainHw, k: nat)
    requires Wf(d) && k in d.issued && k < MAX_SLOTS
    ensures (hw.Registers? && k !in hw.sact && k !in hw.ci) ||
            (k in AfterPoll(d, interrupted, hw).0.issued && AfterPoll(d, interrupted, hw).0.slots[k] == d.slots[k])
  {
    if d.reset == Running && (hw.Registers? ==> k in hw.sact || k in hw.ci) {
      DrainRetiresOnlyClear(d.(countdown := Watch(d, interrupted).1), hw, k);
    }
  }

  /** A submission either activates one free slot, or leaves every slot alone. */
  lemma SubmitShape(d: Disk, c: Command, hw: SubmitHw) returns (i: nat)
    requires Wf(d)
    ensures AfterSubmit(d, c, hw).1 != Accepted ==> AfterSubmit(d, c, hw).0 in {d, StartReset(d)}
    ensures AfterSubmit(d, c, hw).1 == Accepted ==>
      && AsyncError(d).None? && i < d.config.slotCount && d.slots[i].state == Free
      && (if IsFlush(c.operation) then d.issued == {} else !d.exclusive)
      && AfterSubmit(d, c, hw).0 in {Activate(d, c, i), StartReset(Activate(d, c, i))}
  {
    var free := FirstFree(d.slots, d.config.slotCount, 0);
    i := if free.Some? then free.value else 0;
  }

  lemma SubmitKeepsInv(d: Disk, c: Command, hw: SubmitHw)
    requires Inv(d)
    ensures Inv(AfterSubmit(d, c, hw).0)
  {
    ResetKeepsCore(d);
    var i := SubmitShape(d, c, hw);
    if AfterSubmit(d, c, hw).1 == Accepted {
      ActivateKeepsCore(d, c, i);
      ResetKeepsCore(Activate(d, c, i));
    }
  }

  lemma PollKeepsInv(d: Disk, interrupted: bool, hw: DrainHw)
    requires Inv(d)
    ensures Inv(AfterPoll(d, interrupted, hw).0)
  {
    if d.reset != Running {
      PopKeepsInv(d, Failed(if d.reset == Isolated then QuarantinedDevice else DeviceReset));
    } else if AsyncError(d).None? {
      var ticked := d.(countdown := Watch(d, interrupted).1);
      SameSlotsKeepCore(d, ticked);
      if Watch(d, interrupted).0 {
        DrainKeepsInv(ticked, hw);
        PopKeepsInv(Drain(ticked, hw).0, Waiting);
      } else {
        PopKeepsInv(ticked, Waiting);
      }
    }
  }

  lemma DrainKeepsInv(d: Disk, hw: DrainHw)
    requires Inv(d) && d.reset == Running
    ensures Inv(Drain(d, hw).0)
  {
    match hw
    case PortFails(_) => ResetKeepsCore(d);
    case AccessFails =>
    case ErrorInterrupt => ResetKeepsCore(d);
    case Registers(sact, ci, rearmOk) => RetireAllKeepsInv(d, Completed(d.issued, sact, ci), rearmOk);
  }

  lemma IsolateKeepsCore(d: Disk)
    requires Core(d) && d.reset != Isolated && d.reset != Complete
    ensures Core(Isolate(d))
  {
    forall k | 0 <= k < MAX_SLOTS ensures SlotAgrees(Isolate(d), k) { assert SlotAgrees(d, k); }
  }

  lemma ReleaseKeepsCore(d: Disk)
    requires Core(d) && d.reset == WaitingForFr
    ensures Core(ReleaseAll(d).(reset := Complete, unavailable := true, asyncEnabled := false))
  {
    var e := ReleaseAll(d).(reset := Complete, unavailable := true, asyncEnabled := false);
    forall k | 0 <= k < MAX_SLOTS ensures SlotAgrees(e, k) { assert SlotAgrees(d, k); }
  }

  lemma AdvanceKeepsCore(d: Disk, hw: ResetHw)
    requires Core(d) && d.reset !in {Running, Complete, Isolated}
    ensures Core(AdvanceReset(d, hw).0)
  {
    IsolateKeepsCore(d);
    match d.reset
    case StopRequested => SameSlotsKeepCore(d, d.(msiEnabled := false, reset := WaitingForCr));
    case WaitingForCr => SameSlotsKeepCore(d, d.(reset := WaitingForFr));
    case WaitingForFr => ReleaseKeepsCore(d);
  }

  lemma PollResetKeepsInv(d: Disk, hw: ResetHw)
    requires Inv(d)
    ensures Inv(AfterPollReset(d, hw).0)
  {
    if d.reset != Complete && d.reset != Isolated {
      var started := StartReset(d);
      ResetKeepsCore(d);
      if started.resetWatchdog == 0 {
        IsolateKeepsCore(started);
      } else {
        TickKeepsCore(started);
        AdvanceKeepsCore(started.(resetWatchdog := started.resetWatchdog - 1), hw);
      }
    }
  }

  lemma TickKeepsCore(d: Disk)
    requires Core(d) && d.resetWatchdog > 0 && d.reset != Isolated && d.reset != Complete
    ensures Core(d.(resetWatchdog := d.resetWatchdog - 1))
  {
    SameSlotsKeepCore(d, d.(resetWatchdog := d.resetWatchdog - 1));
  }

  lemma StepKeepsInv(d: Disk, e: Event)
    requires Inv(d)
    ensures Inv(Step(d, e).0)
  {
    match e
    case Submit(command, hw) => SubmitKeepsInv(d, command, hw);
    case Poll(interrupted, hw) => PollKeepsInv(d, interrupted, hw);
    case Cancel(token) => ResetKeepsCore(d);
    case PollReset(hw) => PollResetKeepsInv(d, hw);
  }

  function Run(d: Disk, events: seq<Event>): Disk
    requires Wf(d)
    ensures Wf(Run(d, events))
    decreases |events|
  {
    if events == [] then d else Run(Step(d, events[0]).0, events[1..])
  }

  /** Over every run the mask, the slots and the in-flight count agree and a flush is never
      in flight with any other command. */
  lemma {:induction false} RunKeepsInv(d: Disk, events: seq<Event>)
    requires Inv(d)
    ensures Inv(Run(d, events))
    decreases |events|
  {
    if events != [] {
      StepKeepsInv(d, events[0]);
      RunKeepsInv(Step(d, events[0]).0, events[1..]);
    }
  }

  lemma FlushIsAlone(d: Disk, events: seq<Event>, i: nat, j: nat)
    requires Initial(d)
    requires i in Run(d, events).issued && j in Run(d, events).issued && i < MAX_SLOTS
    requires IsFlush(Run(d, events).slots[i].operation)
    ensures i == j
  {
    InitialInv(d);
    RunKeepsInv(d, events);
    assert SlotAgrees(Run(d, events), i);
  }

  // --------------------------------------------------------- completion ring

  /** Everything in flight still has a place in the ring. */
  predicate Fits(d: Disk) { d.inFlight + |d.ring| <= d.config.slotCount }

  /** Every submission follows a ready poll. */
  predicate Polite(d: Disk, events: seq<Event>)
    requires Wf(d)
    decreases |events|
  {
    events != [] ==>
      && (events[0].Submit? ==> PollReady(d) == Settled)
      && Polite(Step(d, events[0]).0, events[1..])
  }

  /** A poll overflows the ring exactly when it looks at the registers and finds more
      finished commands than the ring has room for. */
  lemma PollOverflowsExactly(d: Disk, interrupted: bool, hw: DrainHw)
    requires Inv(d)
    ensures AfterPoll(d, interrupted, hw).1 == Failed(CompletionQueueFull) <==>
      (AsyncError(d).None? && Watch(d, interrupted).0 && hw.Registers? &&
       |d.ring| + |Completed(d.issued, hw.sact, hw.ci)| > d.config.slotCount)
  {
    if AsyncError(d).None? && hw.Registers? {
      var ticked := d.(countdown := Watch(d, interrupted).1);
      SameSlotsKeepCore(d, ticked);
      RetireAllKeepsInv(ticked, Completed(d.issued, hw.sact, hw.ci), hw.rearmOk);
    }
  }

  lemma Shrinks(a: set<nat>, b: set<nat>)
    requires a <= b
    ensures |a| <= |b|
  {
    assert b == a + (b - a);
  }

  /** Whatever the registers read, a poll of a working port cannot overflow exactly when
      everything in flight has a place. */
  lemma OverflowThreatensExactly(d: Disk)
    requires Inv(d) && AsyncError(d).None?
    ensures Fits(d) <==> forall interrupted, hw :: AfterPoll(d, interrupted, hw).1 != Failed(CompletionQueueFull)
  {
    if Fits(d) {
      forall interrupted, hw ensures AfterPoll(d, interrupted, hw).1 != Failed(CompletionQueueFull) {
        PollOverflowsExactly(d, interrupted, hw);
        if hw.Registers? { Shrinks(Completed(d.issued, hw.sact, hw.ci), d.issued); }
      }
    } else {
      PollOverflowsExactly(d, true, Registers({}, {}, true));
      assert Completed(d.issued, {}, {}) == d.issued;
    }
  }

  lemma {:induction false} RetireFromKeepsFits(d: Disk, completed: set<nat>, i: nat)
    requires Core(d) && Fits(d) && d.reset == Running && From(completed, i) <= d.issued
    ensures Fits(RetireFrom(d, completed, i).0)
    decreases d.config.slotCount - i
  {
    FromSplits(completed, i);
    if i < d.config.slotCount {
      if i in completed {
        assert i in From(completed, i) && SlotAgrees(d, i);
        if |d.ring| < d.config.slotCount {
          RetireKeepsCore(d, i);
          RetireFromKeepsFits(Retire(d, i), completed, i + 1);
        }
      } else {
        RetireFromKeepsFits(d, completed, i + 1);
      }
    }
  }

  lemma DrainKeepsFits(d: Disk, hw: DrainHw)
    requires Inv(d) && Fits(d) && d.reset == Running
    ensures Fits(Drain(d, hw).0) && Drain(d, hw).1 != Some(CompletionQueueFull)
  {
    if hw.Registers? {
      var completed := Completed(d.issued, hw.sact, hw.ci);
      Shrinks(completed, d.issued);
      RetireAllKeepsInv(d, completed, hw.rearmOk);
      assert From(completed, 0) == completed;
      RetireFromKeepsFits(d, completed, 0);
    }
  }

  lemma PollKeepsFits(d: Disk, interrupted: bool, hw: DrainHw)
    requires Inv(d) && Fits(d)
    ensures Fits(AfterPoll(d, interrupted, hw).0) && AfterPoll(d, interrupted, hw).1 != Failed(CompletionQueueFull)
  {
    if AsyncError(d).None? {
      var ticked := d.(countdown := Watch(d, interrupted).1);
      SameSlotsKeepCore(d, ticked);
      DrainKeepsFits(ticked, hw);
    }
  }

  lemma StepKeepsFits(d: Disk, e: Event)
    requires Inv(d) && Fits(d) && (e.Submit? ==> PollReady(d) == Settled)
    ensures Fits(Step(d, e).0) && Step(d, e).1 != Failed(CompletionQueueFull)
  {
    match e
    case Submit(c, hw) => var _ := SubmitShape(d, c, hw);
    case Poll(interrupted, hw) => PollKeepsFits(d, interrupted, hw);
    case Cancel(_) =>
    case PollReset(_) =>
  }

  /** With that discipline the completion-full branch is dead in every run. */
  lemma {:induction false} PoliteRunsNeverOverflow(d: Disk, events: seq<Event>, last: Event)
    requires Inv(d) && Fits(d) && Polite(d, events + [last])
    ensures Fits(Run(d, events)) && Step(Run(d, events), last).1 != Failed(CompletionQueueFull)
    decreases |events|
  {
    if events == [] {
      StepKeepsFits(d, last);
    } else {
      assert (events + [last])[1..] == events[1..] + [last];
      StepKeepsInv(d, events[0]);
      StepKeepsFits(d, events[0]);
      PoliteRunsNeverOverflow(Step(d, events[0]).0, events[1..], last);
    }
  }
}
