/** The driver object: slot and completion arrays updated in place, refining the port model. */
module AhciDriver {
  import opened Objects
  import opened Prdt
  import opened Ahci
  import opened AhciRequests

  function Wrap(x: nat, n: nat): nat { if x < n then x else x - n }

  lemma WrapIsMod(x: nat, n: nat)
    requires 0 < n && x <= n
    ensures x % n == Wrap(x, n)
  {
    if x == n { assert n % n == 0; }
  }

  /** Cell `k` of the ring of `n` cells that starts at `head`. */
  function Cell(cells: seq<Option<Token>>, head: nat, n: nat, k: nat): Option<Token>
    requires k < n <= |cells| && head < n
  {
    cells[Wrap(head + k, n)]
  }

  predicate RingOk(cells: seq<Option<Token>>, head: nat, count: nat, n: nat)
  {
    && 0 < n <= |cells| && head < n && count <= n
    && forall k :: 0 <= k < count ==> Cell(cells, head, n, k).Some?
  }

  /** The completions waiting to be read, oldest first. */
  function RingOf(cells: seq<Option<Token>>, head: nat, count: nat, n: nat): seq<Token>
    requires RingOk(cells, head, count, n)
  {
    seq(count, k requires 0 <= k < count => Cell(cells, head, n, k).value)
  }

  lemma PushAppends(cells: seq<Option<Token>>, head: nat, count: nat, n: nat, t: Token)
    requires RingOk(cells, head, count, n) && count < n
    ensures RingOk(cells[Wrap(head + count, n) := Some(t)], head, count + 1, n)
    ensures RingOf(cells[Wrap(head + count, n) := Some(t)], head, count + 1, n) == RingOf(cells, head, count, n) + [t]
  {
    var after := cells[Wrap(head + count, n) := Some(t)];
    forall k | 0 <= k < count ensures Cell(after, head, n, k) == Cell(cells, head, n, k) {}
    assert Cell(after, head, n, count) == Some(t);
  }

  lemma PopDrops(cells: seq<Option<Token>>, head: nat, count: nat, n: nat)
    requires RingOk(cells, head, count, n) && count > 0
    ensures cells[head] == Some(RingOf(cells, head, count, n)[0])
    ensures RingOk(cells[head := None], Wrap(head + 1, n), count - 1, n)
    ensures RingOf(cells[head := None], Wrap(head + 1, n), count - 1, n) == RingOf(cells, head, count, n)[1..]
  {
    var after, next := cells[head := None], Wrap(head + 1, n);
    assert Cell(cells, head, n, 0) == cells[head];
    forall k | 0 <= k < count - 1 ensures Cell(after, next, n, k) == Cell(cells, head, n, k + 1) {}
  }

  class Driver {
    const config: Config
    const slots: array<Slot>
    const completions: array<Option<Token>>
    var issued: set<nat>
    var exclusive: bool
    var head: nat
    var tail: nat
    var count: nat
    var countdown: nat
    var resetWatchdog: nat
    var reset: ResetState
    var unavailable: bool
    var asyncEnabled: bool
    var msiEnabled: bool
    var inFlight: nat

    ghost predicate Valid()
      reads this, slots, completions
    {
      && 1 <= config.slotCount <= MAX_SLOTS && slots.Length == MAX_SLOTS && completions.Length == MAX_SLOTS
      && RingOk(completions[..], head, count, config.slotCount)
      && tail == Wrap(head + count, config.slotCount)
    }

    ghost function Ring(): seq<Token>
      requires Valid()
      reads this, slots, completions
    {
      RingOf(completions[..], head, count, config.slotCount)
    }

    ghost function View(): Disk
      requires Valid()
      reads this, slots, completions
    {
      Disk(config, slots[..], issued, exclusive, Ring(), countdown, resetWatchdog, reset, unavailable,
           asyncEnabled, msiEnabled, inFlight)
    }

    constructor (config: Config)
      requires 1 <= config.slotCount <= MAX_SLOTS
      ensures Valid() && Initial(View()) && AsyncError(View()).None? && this.config == config
      ensures fresh(slots) && fresh(completions)
    {
      this.config := config;
      slots := new Slot[MAX_SLOTS](_ => EMPTY_SLOT);
      completions := new Option<Token>[MAX_SLOTS](_ => None);
      issued, exclusive, head, tail, count := {}, false, 0, 0, 0;
      countdown, resetWatchdog, reset := INTERRUPT_WATCHDOG_POLLS, 0, Running;
      unavailable, asyncEnabled, msiEnabled, inFlight := false, true, true, 0;
    }

    method BeginReset()
      requires Valid()
      modifies this
      ensures Valid() && View() == StartReset(old(View()))
    {
      if reset == Running {
        reset := StopRequested;
        resetWatchdog := RESET_WATCHDOG_POLLS;
      }
    }

    method EnsureAsyncMode() returns (error: Option<AhciError>)
      requires Valid()
      ensures error == AsyncError(View())
    {
      if reset != Running { return Some(DeviceReset); }
      if unavailable { return Some(DeviceUnavailable); }
      if !asyncEnabled || !msiEnabled { return Some(AsyncNotEnabled); }
      return None;
    }

    method FindFreeSlot() returns (slot: Option<nat>)
      requires Valid()
      ensures slot == FirstFree(slots[..], config.slotCount, 0)
    {
      var i: nat := 0;
      while i < config.slotCount
        invariant i <= config.slotCount
        invariant FirstFree(slots[..], config.slotCount, 0) == FirstFree(slots[..], config.slotCount, i)
      {
        if slots[i].state == Free { return Some(i); }
        i := i + 1;
      }
      return None;
    }

    method PushCompletion(token: Token) returns (ok: bool)
      requires Valid()
      modifies this, completions
      ensures Valid() && ok == (|old(Ring())| < config.slotCount)
      ensures ok ==> View() == old(View()).(ring := old(Ring()) + [token])
      ensures !ok ==> View() == StartReset(old(View()))
    {
      if count >= config.slotCount {
        BeginReset();
        return false;
      }
      WrapIsMod(tail + 1, config.slotCount);
      PushAppends(completions[..], head, count, config.slotCount, token);
      completions[tail] := Some(token);
      tail := (tail + 1) % config.slotCount;
      count := count + 1;
      return true;
    }

    method PopCompletion() returns (r: Option<Token>)
      requires Valid()
      modifies this, completions
      ensures Valid() && (r.None? <==> old(Ring()) == [])
      ensures r.None? ==> View() == old(View())
      ensures r.Some? ==> r.value == old(Ring())[0] && View() == old(View()).(ring := old(Ring())[1..])
    {
      if count == 0 { return None; }
      PopDrops(completions[..], head, count, config.slotCount);
      r := completions[head];
      completions[head] := None;
      WrapIsMod(head + 1, config.slotCount);
      head := (head + 1) % config.slotCount;
      count := count - 1;
    }

    /** Retires the completed slots in slot order. */
    method RetireCompleted(completed: set<nat>) returns (error: Option<AhciError>)
      requires Valid() && reset == Running
      modifies this, slots, completions
      ensures Valid() && (View(), error) == RetireFrom(old(View()), completed, 0)
    {
      ghost var before := View();
      var i: nat := 0;
      while i < config.slotCount
        invariant Valid() && reset == Running && i <= config.slotCount
        invariant RetireFrom(View(), completed, i) == RetireFrom(before, completed, 0)
      {
        if i in completed {
          if slots[i].token.None? { return Some(InvalidRequest); }
          var retired := RetireSlot(i);
          if !retired { return Some(CompletionQueueFull); }
        }
        i := i + 1;
      }
      return None;
    }

    method RetireSlot(i: nat) returns (ok: bool)
      requires Valid() && reset == Running && i < config.slotCount && slots[i].token.Some?
      modifies this, slots, completions
      ensures Valid() && ok == (|old(Ring())| < config.slotCount)
      ensures View() == if ok then Retire(old(View()), i) else StartReset(old(View()))
    {
      ok := PushCompletion(slots[i].token.value);
      if ok {
        slots[i] := EMPTY_SLOT;
        issued := issued - {i};
        inFlight := if inFlight == 0 then 0 else inFlight - 1;
      }
    }

    method RearmInterrupts(ok: bool) returns (error: Option<AhciError>)
      requires Valid()
      modifies this
      ensures Valid() && (View(), error) == Rearm(old(View()), ok)
    {
      if reset != Running || !asyncEnabled || !msiEnabled { return None; }
      if ok { return None; }
      BeginReset();
      return Some(DeviceUnavailable);
    }

    method FinishRetiring(completed: set<nat>, rearmOk: bool) returns (error: Option<AhciError>)
      requires Valid() && reset == Running
      modifies this, slots, completions
      ensures Valid() && (View(), error) == RetireAll(old(View()), completed, rearmOk)
    {
      if completed != {} {
        error := RetireCompleted(completed);
        if error.Some? { return; }
        if issued == {} { exclusive := false; }
      }
      error := RearmInterrupts(rearmOk);
    }

    method DrainCompletions(hw: DrainHw) returns (error: Option<AhciError>)
      requires Valid() && reset == Running
      modifies this, slots, completions
      ensures Valid() && (View(), error) == Drain(old(View()), hw)
    {
      match hw
      case PortFails(fault) =>
        BeginReset();
        error := Some(Hardware(fault));
      case AccessFails =>
        error := Some(Hardware(AccessFailed));
      case ErrorInterrupt =>
        BeginReset();
        error := Some(InterfaceError);
      case Registers(sact, ci, rearmOk) =>
        error := FinishRetiring(Completed(issued, sact, ci), rearmOk);
    }

    /** Whether this poll looks at the registers, counting down otherwise. */
    method TickCountdown(interrupted: bool) returns (drain: bool)
      requires Valid()
      modifies this`countdown
      ensures Valid() && drain == Watch(old(View()), interrupted).0
      ensures View() == old(View()).(countdown := Watch(old(View()), interrupted).1)
    {
      if interrupted {
        countdown := INTERRUPT_WATCHDOG_POLLS;
        return true;
      }
      if issued == {} { return false; }
      if countdown > 1 {
        countdown := countdown - 1;
        return false;
      }
      countdown := INTERRUPT_WATCHDOG_POLLS;
      return true;
    }

    method PollCompletion(interrupted: bool, hw: DrainHw) returns (outcome: Outcome)
      requires Valid()
      modifies this, slots, completions
      ensures Valid() && (View(), outcome) == AfterPoll(old(View()), interrupted, hw)
    {
      if reset != Running {
        var popped := PopCompletion();
        if popped.Some? { return Delivered(popped.value); }
        return Failed(if reset == Isolated then QuarantinedDevice else DeviceReset);
      }
      var mode := EnsureAsyncMode();
      if mode.Some? { return Failed(mode.value); }
      var drain := TickCountdown(interrupted);
      if drain {
        var error := DrainCompletions(hw);
        if error.Some? { return Failed(error.value); }
      }
      var next := PopCompletion();
      return if next.Some? then Delivered(next.value) else Waiting;
    }

    method RequestCancel(token: Token) returns (outcome: Outcome)
      requires Valid()
      modifies this
      ensures Valid() && (View(), outcome) == AfterCancel(old(View()), token)
    {
      var mode := EnsureAsyncMode();
      if mode.Some? { return Failed(mode.value); }
      for i := 0 to config.slotCount
        invariant forall k :: 0 <= k < i ==> !(slots[k].state == Active && slots[k].token == Some(token))
      {
        if slots[i].state == Active && slots[i].token == Some(token) {
          BeginReset();
          return Settled;
        }
      }
      return Settled;
    }

    /** Checks a request before any hardware is touched. */
    method CheckRequest(c: Command) returns (error: Option<AhciError>)
      requires Valid()
      ensures error == RequestError(View(), c)
      ensures error.None? <==> Async(View()) && WellFormed(View(), c)
    {
      RequestIsWellFormed(View(), c);
      error := EnsureAsyncMode();
      if error.Some? { return; }
      if IsFlush(c.operation) {
        if !config.flushSupported { return Some(UnsupportedDevice); }
        if issued != {} || c.byteLen != 0 || c.segments != [] { return Some(InvalidRequest); }
        if c.lba >= 0x1_0000_0000_0000 { return Some(InvalidTransfer); }
        return if c.lba > config.capacity then Some(OutOfBounds) else None;
      }
      if exclusive { return Some(QueueFull); }
      if c.byteLen == 0 || c.byteLen % SECTOR_SIZE != 0 { return Some(InvalidRequest); }
      var sectors := c.byteLen / SECTOR_SIZE;
      if sectors > MAX_ATA_SECTORS || c.lba >= 0x1_0000_0000_0000 { return Some(InvalidTransfer); }
      if c.lba + sectors > config.capacity { return Some(OutOfBounds); }
      var plan := BuildPrdt(c.segments, c.byteLen, config.supports64, config.maxSegments);
      return if plan.Ok? then None else Some(Segments(plan.error));
    }

    method SubmitAsync(c: Command, hw: SubmitHw) returns (outcome: Outcome)
      requires Valid()
      modifies this, slots
      ensures Valid() && (View(), outcome) == AfterSubmit(old(View()), c, hw)
      ensures outcome == Accepted <==> exists i: nat :: Takes(old(View()), c, hw, i)
      ensures forall i: nat :: Takes(old(View()), c, hw, i) ==> Placed(old(View()), View(), c, i, hw.issueOk)
    {
      AcceptedExactly(View(), c, hw);
      var error := CheckRequest(c);
      if error.Some? { return Failed(error.value); }
      var free := FindFreeSlot();
      if free.None? { return Failed(QueueFull); }
      if hw.table.Some? { return Failed(Hardware(hw.table.value)); }
      if hw.port.Some? {
        BeginReset();
        return Failed(Hardware(hw.port.value));
      }
      if hw.busy.None? { return Failed(Hardware(AccessFailed)); }
      if free.value in hw.busy.value { return Failed(CommandSlotBusy); }
      ActivateSlot(c, free.value);
      if !hw.issueOk { BeginReset(); }
      return Accepted;
    }

    method ActivateSlot(c: Command, i: nat)
      requires Valid() && i < MAX_SLOTS
      modifies this, slots
      ensures Valid() && View() == Activate(old(View()), c, i)
    {
      slots[i] := Slot(Active, Some(c.token), c.operation, c.byteLen);
      issued := issued + {i};
      exclusive := IsFlush(c.operation);
      inFlight := inFlight + 1;
    }

    /** Fences every active slot off for good. */
    method Quarantine()
      requires Valid()
      modifies this, slots
      ensures Valid() && View() == Isolate(old(View()))
    {
      for i := 0 to config.slotCount
        modifies slots
        invariant slots[i..] == old(slots[i..])
        invariant forall k :: 0 <= k < i ==> slots[k] == Fenced(old(slots[k]))
      {
        if slots[i].state == Active { slots[i] := slots[i].(state := Quarantined); }
      }
      reset, unavailable, asyncEnabled, msiEnabled := Isolated, true, false, false;
      assert slots[..] == Isolate(old(View())).slots;
    }

    method ReleaseAfterDmaStopProof()
      requires Valid()
      modifies this, slots, completions
      ensures Valid() && View() == ReleaseAll(old(View()))
    {
      for i := 0 to config.slotCount
        modifies slots
        invariant slots[i..] == old(slots[i..])
        invariant forall k :: 0 <= k < i ==> slots[k] == EMPTY_SLOT
      {
        slots[i] := EMPTY_SLOT;
      }
      assert slots[..] == ReleaseAll(old(View())).slots;
      forall i | 0 <= i < completions.Length { completions[i] := None; }
      issued, exclusive, inFlight := {}, false, 0;
      head, tail, count := 0, 0, 0;
    }

    method AdvanceResetMachine(hw: ResetHw) returns (outcome: Outcome)
      requires Valid() && reset !in {Running, Complete, Isolated}
      modifies this, slots, completions
      ensures Valid() && (View(), outcome) == AdvanceReset(old(View()), hw)
    {
      if hw.Broken? || (!hw.writeOk && (reset == StopRequested || (reset == WaitingForCr && !hw.command.cr))) {
        Quarantine();
        return Failed(Hardware(AccessFailed));
      }
      outcome := Waiting;
      match reset
      case StopRequested =>
        msiEnabled := false;
        reset := WaitingForCr;
      case WaitingForCr =>
        if !hw.command.cr { reset := WaitingForFr; }
      case WaitingForFr =>
        if !hw.command.cr && !hw.command.fr {
          ReleaseAfterDmaStopProof();
          reset, unavailable, asyncEnabled := Complete, true, false;
          outcome := Settled;
        }
    }

    method PollReset(hw: ResetHw) returns (outcome: Outcome)
      requires Valid()
      modifies this, slots, completions
      ensures Valid() && (View(), outcome) == AfterPollReset(old(View()), hw)
    {
      if reset == Complete { return Settled; }
      if reset == Isolated { return Failed(DmaStopUnproved); }
      BeginReset();
      if resetWatchdog == 0 {
        Quarantine();
        return Failed(DmaStopUnproved);
      }
      resetWatchdog := resetWatchdog - 1;
      outcome := AdvanceResetMachine(hw);
    }
  }
}
