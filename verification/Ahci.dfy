/** The asynchronous AHCI port driver: command slots, completion ring and the reset machine.
    What the hardware answers is a parameter of each step. A 32-bit slot mask is the set of
    its bit positions. */
module Ahci {
  import opened Objects
  import opened Prdt

  const MAX_SLOTS: nat := 32
  const SECTOR_SIZE: nat := 512
  const INTERRUPT_WATCHDOG_POLLS: nat := 64
  const RESET_WATCHDOG_POLLS: nat := 4096

  /** Identity of a dispatched command. */
  type Token = nat

  datatype Operation = Read | Write | Flush | Barrier

  datatype SlotState = Free | Active | Quarantined

  datatype Slot = Slot(state: SlotState, token: Option<Token>, operation: Operation, byteLen: nat)

  const EMPTY_SLOT: Slot := Slot(Free, None, Read, 0)

  datatype ResetState = Running | StopRequested | WaitingForCr | WaitingForFr | Complete | Isolated

  /** What the hardware side of a call can report. */
  datatype Fault = AccessFailed | PortRemoved | WrongDevice | NoCommandTable

  datatype AhciError =
    | Hardware(fault: Fault) | UnsupportedDevice | InvalidRequest | InvalidTransfer | OutOfBounds
    | Segments(reason: PrdtError) | QueueFull | CommandSlotBusy | CompletionQueueFull | InterfaceError
    | DeviceUnavailable | AsyncNotEnabled | DeviceReset | DmaStopUnproved | QuarantinedDevice

  datatype Command = Command(token: Token, operation: Operation, lba: nat, byteLen: nat, segments: seq<Region>)

  /** What the port is and can do; fixed once the driver is up. */
  datatype Config = Config(slotCount: nat, capacity: nat, flushSupported: bool, supports64: bool, maxSegments: nat)

  datatype Disk = Disk(
    config: Config,
    slots: seq<Slot>,
    issued: set<nat>,
    exclusive: bool,
    ring: seq<Token>,
    countdown: nat,
    resetWatchdog: nat,
    reset: ResetState,
    unavailable: bool,
    asyncEnabled: bool,
    msiEnabled: bool,
    inFlight: nat)

  predicate Wf(d: Disk)
  {
    1 <= d.config.slotCount <= MAX_SLOTS && |d.slots| == MAX_SLOTS
  }

  /** `e` is the same well-formed port, whose reset has at most just been asked for. */
  predicate Continues(d: Disk, e: Disk)
  {
    && Wf(e) && e.config == d.config
    && (if e.reset == d.reset then e.resetWatchdog == d.resetWatchdog
        else d.reset == Running && e.reset == StopRequested && e.resetWatchdog == RESET_WATCHDOG_POLLS)
  }

  /** The driver as it enters asynchronous mode. */
  predicate Initial(d: Disk)
  {
    && Wf(d)
    && (forall i :: 0 <= i < MAX_SLOTS ==> d.slots[i] == EMPTY_SLOT)
    && d.issued == {} && d.ring == [] && d.inFlight == 0 && !d.exclusive
    && d.reset == Running && d.resetWatchdog == 0
  }

  predicate IsFlush(operation: Operation) { operation == Flush || operation == Barrier }

  // ------------------------------------------------------- hardware answers

  /** Submitting: writing the command table, validating the port, the slots the CI and SACT
      registers report busy (`None` when reading them fails), and issuing. */
  datatype SubmitHw = SubmitHw(table: Option<Fault>, port: Option<Fault>, busy: Option<set<nat>>, issueOk: bool)

  /** Draining: the first thing that goes wrong, or the registers. */
  datatype DrainHw =
    | PortFails(fault: Fault)
    | AccessFails
    | ErrorInterrupt
    | Registers(sact: set<nat>, ci: set<nat>, rearmOk: bool)

  datatype PortCommand = PortCommand(cr: bool, fr: bool)

  /** Polling a reset: some access failed or PORT_CMD read all ones, or its value. */
  datatype ResetHw = Broken | Value(command: PortCommand, writeOk: bool)

  datatype Event =
    | Submit(command: Command, submitHw: SubmitHw)
    | Poll(interrupted: bool, drainHw: DrainHw)
    | Cancel(token: Token)
    | PollReset(resetHw: ResetHw)

  datatype Outcome = Accepted | Delivered(token: Token) | Failed(error: AhciError) | Waiting | Settled

  // -------------------------------------------------------------- operations

  function StartReset(d: Disk): Disk
  {
    if d.reset == Running then d.(reset := StopRequested, resetWatchdog := RESET_WATCHDOG_POLLS) else d
  }

  function AsyncError(d: Disk): Option<AhciError>
  {
    if d.reset != Running then Some(DeviceReset)
    else if d.unavailable then Some(DeviceUnavailable)
    else if !d.asyncEnabled || !d.msiEnabled then Some(AsyncNotEnabled)
    else None
  }

  function PollReady(d: Disk): Outcome
  {
    if AsyncError(d).Some? then Failed(AsyncError(d).value)
    else if d.exclusive || d.inFlight + |d.ring| >= d.config.slotCount then Waiting
    else Settled
  }

  /** The first free slot from `i` on. */
  function FirstFree(slots: seq<Slot>, n: nat, i: nat): (r: Option<nat>)
    requires n <= |slots|
    ensures r.Some? ==> i <= r.value < n && slots[r.value].state == Free
    ensures forall k :: i <= k < (if r.Some? then r.value else n) ==> slots[k].state != Free
    decreases n - i
  {
    if i >= n then None
    else if slots[i].state == Free then Some(i)
    else FirstFree(slots, n, i + 1)
  }

  /** The checks made before the hardware is touched. */
  function RequestError(d: Disk, c: Command): Option<AhciError>
  {
    var exclusive := IsFlush(c.operation);
    var sectors := if exclusive then 0 else c.byteLen / SECTOR_SIZE;
    if AsyncError(d).Some? then AsyncError(d)
    else if exclusive && !d.config.flushSupported then Some(UnsupportedDevice)
    else if exclusive && (d.issued != {} || c.byteLen != 0 || c.segments != []) then Some(InvalidRequest)
    else if !exclusive && d.exclusive then Some(QueueFull)
    else if !exclusive && (c.byteLen == 0 || c.byteLen % SECTOR_SIZE != 0) then Some(InvalidRequest)
    else if sectors > MAX_ATA_SECTORS || c.lba >= 0x1_0000_0000_0000 then Some(InvalidTransfer)
    else if c.lba + sectors > d.config.capacity then Some(OutOfBounds)
    else if exclusive then None
    else
      var refused := PlanError(c.segments, c.byteLen, d.config.supports64, d.config.maxSegments);
      if refused.Some? then Some(Segments(refused.value)) else None
  }

  function Activate(d: Disk, c: Command, i: nat): Disk
    requires i < |d.slots|
  {
    d.(slots := d.slots[i := Slot(Active, Some(c.token), c.operation, c.byteLen)],
       issued := d.issued + {i},
       exclusive := IsFlush(c.operation),
       inFlight := d.inFlight + 1)
  }

  function AfterSubmit(d: Disk, c: Command, hw: SubmitHw): (r: (Disk, Outcome))
    requires Wf(d)
    ensures Continues(d, r.0)
  {
    var free := FirstFree(d.slots, d.config.slotCount, 0);
    if RequestError(d, c).Some? then (d, Failed(RequestError(d, c).value))
    else if free.None? then (d, Failed(QueueFull))
    else if hw.table.Some? then (d, Failed(Hardware(hw.table.value)))
    else if hw.port.Some? then (StartReset(d), Failed(Hardware(hw.port.value)))
    else if hw.busy.None? then (d, Failed(Hardware(AccessFailed)))
    else if free.value in hw.busy.value then (d, Failed(CommandSlotBusy))
    else
      var issued := Activate(d, c, free.value);
      (if hw.issueOk then issued else StartReset(issued), Accepted)
  }

  /** Slots the hardware has let go of. */
  function Completed(issued: set<nat>, sact: set<nat>, ci: set<nat>): set<nat>
  {
    issued - (sact + ci)
  }

  function Retire(d: Disk, i: nat): Disk
    requires i < |d.slots| && d.slots[i].token.Some?
  {
    d.(ring := d.ring + [d.slots[i].token.value],
       slots := d.slots[i := EMPTY_SLOT],
       issued := d.issued - {i},
       inFlight := if d.inFlight == 0 then 0 else d.inFlight - 1)
  }

  /** Retires the completed slots from `i` on, in slot order. */
  function RetireFrom(d: Disk, completed: set<nat>, i: nat): (r: (Disk, Option<AhciError>))
    requires Wf(d) && d.reset == Running
    ensures Continues(d, r.0)
    decreases d.config.slotCount - i
  {
    if i >= d.config.slotCount then (d, None)
    else if i !in completed then RetireFrom(d, completed, i + 1)
    else if d.slots[i].token.None? then (d, Some(InvalidRequest))
    else if |d.ring| >= d.config.slotCount then (StartReset(d), Some(CompletionQueueFull))
    else RetireFrom(Retire(d, i), completed, i + 1)
  }

  function Rearm(d: Disk, ok: bool): (Disk, Option<AhciError>)
  {
    if ok || AsyncError(d.(unavailable := false)).Some? then (d, None)
    else (StartReset(d), Some(DeviceUnavailable))
  }

  function RetireAll(d: Disk, completed: set<nat>, rearmOk: bool): (r: (Disk, Option<AhciError>))
    requires Wf(d) && d.reset == Running
    ensures Continues(d, r.0)
  {
    if completed == {} then Rearm(d, rearmOk)
    else
      var after := RetireFrom(d, completed, 0);
      if after.1.Some? then after
      else Rearm(after.0.(exclusive := after.0.exclusive && after.0.issued != {}), rearmOk)
  }

  function Drain(d: Disk, hw: DrainHw): (r: (Disk, Option<AhciError>))
    requires Wf(d) && d.reset == Running
    ensures Continues(d, r.0)
  {
    match hw
    case PortFails(fault) => (StartReset(d), Some(Hardware(fault)))
    case AccessFails => (d, Some(Hardware(AccessFailed)))
    case ErrorInterrupt => (StartReset(d), Some(InterfaceError))
    case Registers(sact, ci, rearmOk) => RetireAll(d, Completed(d.issued, sact, ci), rearmOk)
  }

  function Pop(d: Disk, otherwise: Outcome): (Disk, Outcome)
  {
    if d.ring == [] then (d, otherwise) else (d.(ring := d.ring[1..]), Delivered(d.ring[0]))
  }

  /** Whether this poll looks at the registers, and the countdown it leaves. */
  function Watch(d: Disk, interrupted: bool): (bool, nat)
  {
    if interrupted then (true, INTERRUPT_WATCHDOG_POLLS)
    else if d.issued == {} then (false, d.countdown)
    else if d.countdown > 1 then (false, d.countdown - 1)
    else (true, INTERRUPT_WATCHDOG_POLLS)
  }

  function AfterPoll(d: Disk, interrupted: bool, hw: DrainHw): (r: (Disk, Outcome))
    requires Wf(d)
    ensures Continues(d, r.0)
  {
    if d.reset != Running then
      Pop(d, Failed(if d.reset == Isolated then QuarantinedDevice else DeviceReset))
    else if AsyncError(d).Some? then (d, Failed(AsyncError(d).value))
    else
      var watch := Watch(d, interrupted);
      var ticked := d.(countdown := watch.1);
      if !watch.0 then Pop(ticked, Waiting)
      else
        var drained := Drain(ticked, hw);
        if drained.1.Some? then (drained.0, Failed(drained.1.value)) else Pop(drained.0, Waiting)
  }

  predicate InFlight(d: Disk, token: Token)
    requires Wf(d)
  {
    exists i :: 0 <= i < d.config.slotCount && d.slots[i].state == Active && d.slots[i].token == Some(token)
  }

  function AfterCancel(d: Disk, token: Token): (r: (Disk, Outcome))
    requires Wf(d)
    ensures Continues(d, r.0)
  {
    if AsyncError(d).Some? then (d, Failed(AsyncError(d).value))
    else (if InFlight(d, token) then StartReset(d) else d, Settled)
  }

  function Fenced(s: Slot): Slot
  {
    if s.state == Active then s.(state := Quarantined) else s
  }

  function Isolate(d: Disk): Disk
    requires Wf(d)
  {
    d.(slots := seq(MAX_SLOTS, i requires 0 <= i < MAX_SLOTS =>
         if i < d.config.slotCount then Fenced(d.slots[i]) else d.slots[i]),
       reset := Isolated, unavailable := true, asyncEnabled := false, msiEnabled := false)
  }

  function ReleaseAll(d: Disk): Disk
    requires Wf(d)
  {
    d.(slots := seq(MAX_SLOTS, i requires 0 <= i < MAX_SLOTS =>
         if i < d.config.slotCount then EMPTY_SLOT else d.slots[i]),
       issued := {}, exclusive := false, ring := [], inFlight := 0)
  }

  /** One reset poll that still has time left. */
  function AdvanceReset(d: Disk, hw: ResetHw): (Disk, Outcome)
    requires Wf(d)
  {
    if hw.Broken? then (Isolate(d), Failed(Hardware(AccessFailed)))
    else
      match d.reset
      case StopRequested =>
        if hw.writeOk then (d.(msiEnabled := false, reset := WaitingForCr), Waiting)
        else (Isolate(d), Failed(Hardware(AccessFailed)))
      case WaitingForCr =>
        if hw.command.cr then (d, Waiting)
        else if hw.writeOk then (d.(reset := WaitingForFr), Waiting)
        else (Isolate(d), Failed(Hardware(AccessFailed)))
      case WaitingForFr =>
        if hw.command.cr || hw.command.fr then (d, Waiting)
        else (ReleaseAll(d).(reset := Complete, unavailable := true, asyncEnabled := false), Settled)
      case _ => (d, Waiting)
  }

  function AfterPollReset(d: Disk, hw: ResetHw): (r: (Disk, Outcome))
    requires Wf(d)
    ensures Wf(r.0) && r.0.config == d.config
  {
    var started := StartReset(d);
    if d.reset == Complete then (d, Settled)
    else if d.reset == Isolated then (d, Failed(DmaStopUnproved))
    else if started.resetWatchdog == 0 then (Isolate(started), Failed(DmaStopUnproved))
    else AdvanceReset(started.(resetWatchdog := started.resetWatchdog - 1), hw)
  }

  function Step(d: Disk, e: Event): (r: (Disk, Outcome))
    requires Wf(d)
    ensures Wf(r.0) && r.0.config == d.config
  {
    match e
    case Submit(command, hw) => AfterSubmit(d, command, hw)
    case Poll(interrupted, hw) => AfterPoll(d, interrupted, hw)
    case Cancel(token) => AfterCancel(d, token)
    case PollReset(hw) => AfterPollReset(d, hw)
  }
}
