/** The client/manager protocol over a window's pool of surface buffers. */
module Windows {
  import opened Objects
  import opened Channels

  const U64_MAX: nat := 0xFFFF_FFFF_FFFF_FFFF

  datatype BufferState = ClientOwned | Pending | Displayed | Released

  /** Identity of one submission; its release carries the same three fields. */
  datatype Presentation = Presentation(buffer: u32, generation: nat, serial: nat)

  datatype Window = Window(
    generation: nat,
    buffers: seq<BufferState>,
    pending: Option<Presentation>,
    pendingRead: bool,
    displayed: Option<Presentation>,
    release: Option<Presentation>,
    nextSerial: nat,
    retired: bool,
    clientOpen: bool,
    managerOpen: bool)

  function NewWindow(generation: nat, count: u32): Window
  {
    Window(generation, seq(count, _ => ClientOwned), None, false, None, None, 1, false, true, true)
  }

  predicate HasState(w: Window, buffer: u32, state: BufferState)
  {
    buffer < |w.buffers| && w.buffers[buffer] == state
  }

  datatype Role = Client | Manager

  function WindowSignals(w: Window, role: Role): set<Signal>
  {
    match role
    case Client =>
      (if w.release.Some? then {READABLE} else {})
      + (if !w.managerOpen then {PEER_CLOSED} else {})
      + (if !w.retired && w.managerOpen && w.release.None? && w.pending.None? && ClientOwned in w.buffers
         then {WRITABLE} else {})
    case Manager =>
      (if w.pending.Some? then {READABLE} else {}) + (if !w.clientOpen then {PEER_CLOSED} else {})
  }

  // ------------------------------------------------------------- operations

  datatype Op =
    | Present(buffer: u32, generation: nat)
    | ReadRelease
    | CopyPending(presentation: Presentation)
    | Discard(presentation: Presentation)
    | Coalesce(presentation: Presentation, buffer: u32, generation: nat)
    | Complete(presentation: Presentation, successful: bool)
    | Retire
    | CloseClient
    | CloseManager

  /** The error each operation reports, checks in the order the code makes them; the
      checks of buffer states against the pending, displayed and release records are the
      code's defensive ones. */
  function Error(w: Window, op: Op): Option<IpcError>
  {
    match op
    case Present(buffer, generation) =>
      if w.release.Some? then Some(ShouldWait)
      else if !w.managerOpen then Some(PeerClosed)
      else if w.retired then Some(InvalidMessage)
      else if w.pending.Some? then Some(ShouldWait)
      else if generation != w.generation then Some(InvalidMessage)
      else if !HasState(w, buffer, ClientOwned) then Some(InvalidMessage)
      else if w.nextSerial >= U64_MAX then Some(InvalidMessage)
      else None
    case ReadRelease =>
      if w.release.None? then Some(if w.managerOpen then ShouldWait else PeerClosed)
      else if !HasState(w, w.release.value.buffer, Released) then Some(InvalidMessage)
      else None
    case CopyPending(p) =>
      if w.pending != Some(p) || p.generation != w.generation || p.buffer >= |w.buffers| then Some(InvalidMessage)
      else None
    case Discard(p) =>
      if w.pending != Some(p) then Some(InvalidMessage)
      else if w.pendingRead || w.release.Some? then Some(ShouldWait)
      else if !HasState(w, p.buffer, Pending) then Some(InvalidMessage)
      else None
    case Coalesce(p, buffer, generation) =>
      if w.pending != Some(p) || w.pendingRead || w.release.Some? || w.retired || !w.clientOpen
         || generation != w.generation
      then Some(ShouldWait)
      else if !HasState(w, p.buffer, Pending) || !HasState(w, buffer, ClientOwned) then Some(InvalidMessage)
      else if w.nextSerial >= U64_MAX then Some(InvalidMessage)
      else None
    case Complete(p, successful) =>
      if w.pending != Some(p) then Some(InvalidMessage)
      else if !successful then None
      else if !HasState(w, p.buffer, Pending) then Some(InvalidMessage)
      else if w.displayed.Some? && w.release.Some? then Some(ShouldWait)
      else if w.displayed.Some? && !HasState(w, w.displayed.value.buffer, Displayed) then Some(InvalidMessage)
      else None
    case Retire =>
      if w.retired then None
      else if w.pending.Some? || (w.displayed.Some? && w.release.Some?) then Some(ShouldWait)
      else if w.displayed.Some? && !HasState(w, w.displayed.value.buffer, Displayed) then Some(InvalidMessage)
      else None
    case CloseClient => None
    case CloseManager => None
  }

  function Put(buffers: seq<BufferState>, p: Presentation, state: BufferState): (r: seq<BufferState>)
    ensures |r| == |buffers|
  {
    if p.buffer < |buffers| then buffers[p.buffer := state] else buffers
  }

  /** The window after an operation; one that reports an error changes nothing. */
  function After(w: Window, op: Op): Window
  {
    if Error(w, op).Some? then w else
    match op
    case Present(buffer, generation) =>
      var p := Presentation(buffer, generation, w.nextSerial);
      w.(nextSerial := w.nextSerial + 1, buffers := Put(w.buffers, p, Pending),
         pending := Some(p), pendingRead := false)
    case ReadRelease => w.(release := None, buffers := Put(w.buffers, w.release.value, ClientOwned))
    case CopyPending(p) => w.(pendingRead := true)
    case Discard(p) => w.(buffers := Put(w.buffers, p, Released), pending := None, release := Some(p))
    case Coalesce(p, buffer, generation) =>
      var q := Presentation(buffer, generation, w.nextSerial);
      w.(nextSerial := w.nextSerial + 1, buffers := Put(Put(w.buffers, p, Released), q, Pending),
         pending := Some(q), pendingRead := false, release := Some(p))
    case Complete(p, successful) =>
      if !successful then w
      else if w.displayed.Some? then
        w.(buffers := Put(Put(w.buffers, w.displayed.value, Released), p, Displayed), release := w.displayed,
           pending := None, pendingRead := false, displayed := Some(p))
      else w.(buffers := Put(w.buffers, p, Displayed), pending := None, pendingRead := false, displayed := Some(p))
    case Retire =>
      if w.retired then w
      else if w.displayed.Some? then
        w.(buffers := Put(w.buffers, w.displayed.value, Released), release := w.displayed,
           displayed := None, retired := true)
      else w.(retired := true)
    case CloseClient => w.(clientOpen := false)
    case CloseManager => w.(managerOpen := false)
  }

  // ---------------------------------------------------------------- history

  /** `read` lists the serials whose release the client has read, `shown` the serials
      ever displayed, and `coalesced` tells how the pending submission came about. */
  datatype Session = Session(window: Window, read: seq<nat>, shown: seq<nat>, coalesced: bool)

  function Step(s: Session, op: Op): Session
  {
    var w' := After(s.window, op);
    if Error(s.window, op).Some? then s.(window := w') else
    match op
    case Present(_, _) => s.(window := w', coalesced := false)
    case ReadRelease => s.(window := w', read := s.read + [s.window.release.value.serial])
    case Coalesce(_, _, _) => s.(window := w', coalesced := true)
    case Complete(p, successful) => if successful then s.(window := w', shown := s.shown + [p.serial]) else s
    case _ => s.(window := w')
  }

  function Run(s: Session, ops: seq<Op>): Session
    decreases |ops|
  {
    if ops == [] then s else Run(Step(s, ops[0]), ops[1..])
  }

  function Holds(p: Option<Presentation>, serial: nat): nat
  {
    if p.Some? && p.value.serial == serial then 1 else 0
  }

  /** In how many places a serial is accounted for. */
  function Places(s: Session, serial: nat): nat
  {
    multiset(s.read)[serial]
    + Holds(s.window.pending, serial) + Holds(s.window.displayed, serial) + Holds(s.window.release, serial)
  }

  /** Some buffer carries `state` exactly when `p` records one, and it is that one. */
  ghost predicate Tracks(w: Window, p: Option<Presentation>, state: BufferState)
  {
    && (p.Some? ==> p.value.buffer < |w.buffers| && p.value.generation == w.generation)
    && forall i :: 0 <= i < |w.buffers| ==> (w.buffers[i] == state <==> p.Some? && p.value.buffer == i)
  }

  ghost predicate Ownership(w: Window)
  {
    Tracks(w, w.pending, Pending) && Tracks(w, w.displayed, Displayed) && Tracks(w, w.release, Released)
  }

  /** Every serial ever issued is in exactly one place; nothing else is anywhere. */
  ghost predicate Conserved(s: Session)
  {
    forall serial: nat :: Places(s, serial) == if 1 <= serial < s.window.nextSerial then 1 else 0
  }

  ghost predicate Ordered(s: Session)
  {
    && (forall i, j :: 0 <= i < j < |s.shown| ==> s.shown[i] < s.shown[j])
    && (forall i :: 0 <= i < |s.shown| ==> s.shown[i] < s.window.nextSerial)
    && (s.window.displayed.Some? ==> s.shown != [] && s.shown[|s.shown| - 1] == s.window.displayed.value.serial)
    && (s.window.pending.Some? ==>
          forall i :: 0 <= i < |s.shown| ==> s.shown[i] < s.window.pending.value.serial)
  }

  ghost predicate Inv(s: Session)
  {
    && 2 <= |s.window.buffers| < 0x1_0000_0000 && 1 <= s.window.nextSerial <= U64_MAX
    && Ownership(s.window) && Conserved(s) && Ordered(s)
    && (s.window.retired ==> s.window.pending.None? && s.window.displayed.None?)
    && (s.window.pending.Some? && !s.coalesced ==> s.window.release.None?)
  }

  lemma NewSessionInv(generation: nat, count: u32)
    requires 2 <= count
    ensures Inv(Session(NewWindow(generation, count), [], [], false))
  {
  }

  lemma CoalesceKeepsOwnership(w: Window, p: Presentation, buffer: u32, generation: nat)
    requires Ownership(w) && Error(w, Coalesce(p, buffer, generation)).None?
    ensures Ownership(After(w, Coalesce(p, buffer, generation)))
  {
  }

  lemma FirstCompleteKeepsOwnership(w: Window, p: Presentation)
    requires Ownership(w) && Error(w, Complete(p, true)).None? && w.displayed.None?
    ensures Ownership(After(w, Complete(p, true)))
  {
  }

  lemma NextCompleteKeepsOwnership(w: Window, p: Presentation)
    requires Ownership(w) && Error(w, Complete(p, true)).None? && w.displayed.Some?
    ensures Ownership(After(w, Complete(p, true)))
  {
    assert p.buffer != w.displayed.value.buffer;
  }

  lemma RetireKeepsOwnership(w: Window)
    requires Ownership(w) && Error(w, Retire).None?
    ensures Ownership(After(w, Retire))
  {
  }

  lemma StepKeepsOwnership(w: Window, op: Op)
    requires Ownership(w)
    ensures Ownership(After(w, op))
  {
    if Error(w, op).None? {
      match op
      case Present(buffer, generation) =>
      case ReadRelease =>
      case CopyPending(p) =>
      case Discard(p) =>
      case Coalesce(p, buffer, generation) => CoalesceKeepsOwnership(w, p, buffer, generation);
      case Complete(p, successful) =>
        if successful {
          if w.displayed.Some? { NextCompleteKeepsOwnership(w, p); } else { FirstCompleteKeepsOwnership(w, p); }
        }
      case Retire => RetireKeepsOwnership(w);
      case CloseClient =>
      case CloseManager =>
    }
  }

  /** An operation moves serials between places and at most issues the next one. */
  lemma StepPlaces(s: Session, op: Op, serial: nat)
    ensures Places(Step(s, op), serial) == Places(s, serial)
              + (if s.window.nextSerial < Step(s, op).window.nextSerial && serial == s.window.nextSerial then 1 else 0)
    ensures s.window.nextSerial <= Step(s, op).window.nextSerial <= s.window.nextSerial + 1
  {
    if Error(s.window, op).None? {
      match op
      case Present(buffer, generation) =>
      case ReadRelease =>
      case CopyPending(p) =>
      case Discard(p) =>
      case Coalesce(p, buffer, generation) =>
      case Complete(p, successful) =>
      case Retire =>
      case CloseClient =>
      case CloseManager =>
    }
  }

  lemma StepConserves(s: Session, op: Op)
    requires Conserved(s) && 1 <= s.window.nextSerial
    ensures Conserved(Step(s, op))
  {
    forall serial: nat
      ensures Places(Step(s, op), serial) == if 1 <= serial < Step(s, op).window.nextSerial then 1 else 0
    {
      StepPlaces(s, op, serial);
      assert Places(s, serial) == if 1 <= serial < s.window.nextSerial then 1 else 0;
    }
  }

  /** Anything recorded was issued, so the next serial is newer than all of it. */
  lemma RecordedWasIssued(s: Session, p: Option<Presentation>)
    requires Conserved(s) && p.Some? && (p == s.window.pending || p == s.window.displayed || p == s.window.release)
    ensures p.value.serial < s.window.nextSerial
  {
    assert Places(s, p.value.serial) > 0;
  }

  /** Order survives any change that displays nothing new and submits only newer serials. */
  lemma NothingNewShown(s: Session, s': Session)
    requires Ordered(s) && s'.shown == s.shown && s.window.nextSerial <= s'.window.nextSerial
    requires s'.window.displayed == s.window.displayed || s'.window.displayed.None?
    requires s'.window.pending == s.window.pending || s'.window.pending.None?
          || s'.window.pending.value.serial == s.window.nextSerial
    ensures Ordered(s')
  {
  }

  lemma CompleteKeepsOrder(s: Session, p: Presentation)
    requires Ordered(s) && Conserved(s) && Error(s.window, Complete(p, true)).None?
    ensures Ordered(Step(s, Complete(p, true)))
  {
    RecordedWasIssued(s, s.window.pending);
  }

  lemma StepKeepsOrder(s: Session, op: Op)
    requires Ordered(s) && Conserved(s)
    ensures Ordered(Step(s, op))
  {
    if op.Complete? && op.successful && Error(s.window, op).None? {
      CompleteKeepsOrder(s, op.presentation);
    } else {
      NothingNewShown(s, Step(s, op));
    }
  }

  /** Every operation, successful or not, keeps the protocol invariant. */
  lemma StepKeepsInv(s: Session, op: Op)
    requires Inv(s)
    ensures Inv(Step(s, op))
  {
    StepKeepsOwnership(s.window, op);
    StepConserves(s, op);
    StepKeepsOrder(s, op);
  }

  lemma {:induction false} RunKeepsInv(s: Session, ops: seq<Op>)
    requires Inv(s)
    ensures Inv(Run(s, ops))
    decreases |ops|
  {
    if ops != [] {
      StepKeepsInv(s, ops[0]);
      RunKeepsInv(Step(s, ops[0]), ops[1..]);
    }
  }

  // --------------------------------------------------------------- theorems

  function Created(generation: nat, count: u32): Session
  {
    Session(NewWindow(generation, count), [], [], false)
  }

  /** Exactly-once release over every run: each serial ever issued is pending, displayed,
      waiting as the unread release, or among the releases already read; never two of
      these at once, and no serial's release is read twice. Displayed serials ascend. */
  lemma ReleasesAreExactlyOnce(generation: nat, count: u32, ops: seq<Op>, serial: nat)
    requires 2 <= count
    ensures var s := Run(Created(generation, count), ops);
            && Places(s, serial) == (if 1 <= serial < s.window.nextSerial then 1 else 0)
            && (forall i, j :: 0 <= i < j < |s.shown| ==> s.shown[i] < s.shown[j])
  {
    NewSessionInv(generation, count);
    RunKeepsInv(Created(generation, count), ops);
  }

  /** In reachable states the defensive buffer-state checks never fail: errors are reported
      for exactly these reasons. */
  lemma DefensiveChecksNeverFail(s: Session, p: Presentation, buffer: u32, generation: nat)
    requires Inv(s)
    ensures Error(s.window, ReadRelease) != Some(InvalidMessage) && Error(s.window, Retire) != Some(InvalidMessage)
    ensures Error(s.window, Complete(p, true)) == Some(InvalidMessage) <==> s.window.pending != Some(p)
    ensures Error(s.window, Discard(p)) == Some(InvalidMessage) <==> s.window.pending != Some(p)
    ensures Error(s.window, CopyPending(p)) == Some(InvalidMessage) <==> s.window.pending != Some(p)
    ensures Error(s.window, Coalesce(p, buffer, generation)) == Some(InvalidMessage) ==>
              !HasState(s.window, buffer, ClientOwned) || s.window.nextSerial == U64_MAX
  {
  }

  /** The pool never wedges: while both ends are open, the window is not retired and
      serials remain, the client can present or read a release, or the manager can complete. */
  lemma SomethingIsEnabled(s: Session)
    requires Inv(s) && s.window.clientOpen && s.window.managerOpen && !s.window.retired && s.window.nextSerial < U64_MAX
    ensures || Error(s.window, ReadRelease).None?
            || (s.window.pending.Some? && Error(s.window, Complete(s.window.pending.value, true)).None?)
            || exists b: u32 :: Error(s.window, Present(b, s.window.generation)).None?
  {
    var w := s.window;
    if w.release.None? && w.pending.None? {
      var b: u32 := if w.displayed.Some? && w.displayed.value.buffer == 0 then 1 else 0;
      assert w.buffers[b] == ClientOwned;
      assert Error(w, Present(b, w.generation)).None?;
    }
  }

  /** WRITABLE says exactly that some present would succeed, unless serials have run out. */
  lemma WritableIsExact(s: Session)
    requires Inv(s)
    ensures (exists b: u32, g: nat :: Error(s.window, Present(b, g)).None?) <==>
              WRITABLE in WindowSignals(s.window, Client) && s.window.nextSerial < U64_MAX
  {
    var w := s.window;
    if WRITABLE in WindowSignals(w, Client) && w.nextSerial < U64_MAX {
      var i :| 0 <= i < |w.buffers| && w.buffers[i] == ClientOwned;
      assert Error(w, Present(i, w.generation)).None?;
    }
  }

  /** Present buffer 0, have it discarded, read its release; `n` times over. */
  function Rounds(generation: nat, serial: nat, n: nat): seq<Op>
    decreases n
  {
    if n == 0 then []
    else
      [Present(0, generation), Discard(Presentation(0, generation, serial)), ReadRelease]
      + Rounds(generation, serial + 1, n - 1)
  }

  lemma OneRound(s: Session, count: u32, serial: nat, more: seq<Op>)
    requires 2 <= count && serial < U64_MAX && s.window == NewWindow(s.window.generation, count).(nextSerial := serial)
    ensures
      var g := s.window.generation;
      var s' := s.(window := s.window.(nextSerial := serial + 1), read := s.read + [serial], coalesced := false);
      Run(s, [Present(0, g), Discard(Presentation(0, g, serial)), ReadRelease] + more) == Run(s', more)
  {
    var g := s.window.generation;
    var ops := [Present(0, g), Discard(Presentation(0, g, serial)), ReadRelease] + more;
    var a := Step(s, Present(0, g));
    var b := Step(a, Discard(Presentation(0, g, serial)));
    var c := Step(b, ReadRelease);
    assert ops[1..][1..][1..] == more;
    assert Run(s, ops) == Run(a, ops[1..]) == Run(b, ops[1..][1..]) == Run(c, more);
    assert a.window.pending == Some(Presentation(0, g, serial));
    assert b.window.release == Some(Presentation(0, g, serial));
    assert c.window.buffers == s.window.buffers;
  }

  lemma {:induction false} RoundsReach(s: Session, count: u32, serial: nat, n: nat)
    requires 2 <= count && serial + n <= U64_MAX
    requires s.window == NewWindow(s.window.generation, count).(nextSerial := serial)
    ensures Run(s, Rounds(s.window.generation, serial, n)).window == s.window.(nextSerial := serial + n)
    decreases n
  {
    if n > 0 {
      var s' := s.(window := s.window.(nextSerial := serial + 1), read := s.read + [serial], coalesced := false);
      OneRound(s, count, serial, Rounds(s.window.generation, serial + 1, n - 1));
      RoundsReach(s', count, serial + 1, n - 1);
    }
  }

  /** After any number of such rounds the client sees WRITABLE; but once they have used up
      the serials, no present can succeed. */
  lemma WritableAtExhaustion(generation: nat, count: u32, n: nat)
    requires 2 <= count && n < U64_MAX
    ensures
      var s := Run(Created(generation, count), Rounds(generation, 1, n));
      && Inv(s) && WRITABLE in WindowSignals(s.window, Client)
      && (n == U64_MAX - 1 <==> forall b: u32, g: nat :: Error(s.window, Present(b, g)).Some?)
  {
    var start := Created(generation, count);
    RoundsReach(start, count, 1, n);
    NewSessionInv(generation, count);
    RunKeepsInv(start, Rounds(generation, 1, n));
    var s := Run(start, Rounds(generation, 1, n));
    assert s.window.buffers[0] == ClientOwned;
    WritableIsExact(s);
  }

  /** A submission accepted from the client and never coalesced always finds room for the
      release its completion causes. */
  lemma PlainCompletionNeverWaits(s: Session, p: Presentation)
    requires Inv(s) && !s.coalesced
    ensures Error(s.window, Complete(p, true)) != Some(ShouldWait)
  {
  }

  /** Retirement is final: from then on nothing is pending or displayed. */
  lemma {:induction false} RetirementIsFinal(s: Session, ops: seq<Op>)
    requires Inv(s) && s.window.retired
    ensures Run(s, ops).window.retired
    ensures forall i :: 0 <= i < |Run(s, ops).window.buffers| ==> Run(s, ops).window.buffers[i] !in {Pending, Displayed}
    decreases |ops|
  {
    if ops != [] {
      StepKeepsInv(s, ops[0]);
      assert Step(s, ops[0]).window.retired;
      RetirementIsFinal(Step(s, ops[0]), ops[1..]);
    }
  }

  /** Every successful change is followed by notifying both roles; the one change that
      notifies nobody raises no signal. */
  lemma CopyRaisesNothing(w: Window, p: Presentation, role: Role)
    ensures WindowSignals(After(w, CopyPending(p)), role) == WindowSignals(w, role)
  {
  }

  /** A completion that failed leaves the submission pending, to be tried again. */
  lemma FailedCompletionKeepsAll(w: Window, p: Presentation)
    ensures After(w, Complete(p, false)) == w
    ensures Error(w, Complete(p, false)) == if w.pending == Some(p) then None else Some(InvalidMessage)
  {
  }

  // ------------------------------------------------------- what has been read

  /** The serial whose buffer an operation begins to read, if it does. */
  ghost function CopiedBy(w: Window, op: Op): set<nat>
  {
    if op.CopyPending? && Error(w, op).None? then {op.presentation.serial} else {}
  }

  /** The serials whose buffers the compositor has begun to read during a run. */
  ghost function Copied(s: Session, ops: seq<Op>): set<nat>
    decreases |ops|
  {
    if ops == [] then {} else CopiedBy(s.window, ops[0]) + Copied(Step(s, ops[0]), ops[1..])
  }

  /** What has been read is still pending, and marked so, or has been displayed. */
  ghost predicate ReadIsKept(s: Session, copied: set<nat>)
  {
    && (forall serial :: serial in copied ==> serial in s.shown || Holds(s.window.pending, serial) == 1)
    && (s.window.pending.Some? ==> (s.window.pendingRead <==> s.window.pending.value.serial in copied))
  }

  lemma SubmitKeepsRead(s: Session, copied: set<nat>, op: Op)
    requires (op.Present? || op.Coalesce?) && Error(s.window, op).None? && ReadIsKept(s, copied)
    requires s.window.nextSerial !in copied
    ensures ReadIsKept(Step(s, op), copied)
  {
  }

  lemma CompleteKeepsRead(s: Session, copied: set<nat>, p: Presentation)
    requires Error(s.window, Complete(p, true)).None? && ReadIsKept(s, copied)
    ensures ReadIsKept(Step(s, Complete(p, true)), copied)
  {
    var after := Step(s, Complete(p, true));
    assert after.shown == s.shown + [p.serial];
  }

  lemma StepKeepsRead(s: Session, copied: set<nat>, op: Op)
    requires ReadIsKept(s, copied) && s.window.nextSerial !in copied
    ensures ReadIsKept(Step(s, op), copied + CopiedBy(s.window, op))
  {
    if Error(s.window, op).None? {
      if op.Present? || op.Coalesce? {
        SubmitKeepsRead(s, copied, op);
      } else if op.Complete? && op.successful {
        CompleteKeepsRead(s, copied, op.presentation);
      }
    }
    if CopiedBy(s.window, op) == {} { assert copied + CopiedBy(s.window, op) == copied; }
  }

  /** Only what was issued is read. */
  lemma CopiedIsIssued(s: Session, copied: set<nat>, op: Op)
    requires Conserved(s) && forall serial :: serial in copied ==> serial < s.window.nextSerial
    ensures forall serial :: serial in copied + CopiedBy(s.window, op) ==> serial < Step(s, op).window.nextSerial
  {
    StepPlaces(s, op, 0);
    if s.window.pending.Some? { RecordedWasIssued(s, s.window.pending); }
  }

  lemma {:induction false} RunKeepsRead(s: Session, copied: set<nat>, ops: seq<Op>)
    requires Inv(s) && ReadIsKept(s, copied) && forall serial :: serial in copied ==> serial < s.window.nextSerial
    ensures ReadIsKept(Run(s, ops), copied + Copied(s, ops))
    decreases |ops|
  {
    if ops == [] {
      assert copied + Copied(s, ops) == copied;
    } else {
      StepKeepsInv(s, ops[0]);
      StepKeepsRead(s, copied, ops[0]);
      CopiedIsIssued(s, copied, ops[0]);
      var more := copied + CopiedBy(s.window, ops[0]);
      RunKeepsRead(Step(s, ops[0]), more, ops[1..]);
      assert more + Copied(Step(s, ops[0]), ops[1..]) == copied + Copied(s, ops);
    }
  }

  /** Over every run, a buffer the compositor has begun to read is released only after it
      has been displayed: nothing read is discarded or coalesced away. */
  lemma ReadIsShownBeforeReleased(generation: nat, count: u32, ops: seq<Op>, serial: nat)
    requires 2 <= count && serial in Copied(Created(generation, count), ops)
    ensures
      var s := Run(Created(generation, count), ops);
      Holds(s.window.release, serial) == 1 || serial in s.read || Holds(s.window.displayed, serial) == 1 ==>
        serial in s.shown
  {
    var start := Created(generation, count);
    NewSessionInv(generation, count);
    RunKeepsInv(start, ops);
    RunKeepsRead(start, {}, ops);
    assert {} + Copied(start, ops) == Copied(start, ops);
    var s := Run(start, ops);
    assert Places(s, serial) <= 1;
  }

  /** Over every run the manager may discard or coalesce exactly the pending submission it
      has not read, while the release slot is free. */
  lemma DroppableExactly(generation: nat, count: u32, ops: seq<Op>, p: Presentation, buffer: u32, g: nat)
    requires 2 <= count
    ensures
      var s := Run(Created(generation, count), ops);
      var unread := s.window.pending == Some(p) && p.serial !in Copied(Created(generation, count), ops);
      && (Error(s.window, Discard(p)).None? <==> unread && s.window.release.None?)
      && (Error(s.window, Coalesce(p, buffer, g)).None? <==>
            unread && s.window.release.None? && s.window.clientOpen && g == s.window.generation
            && HasState(s.window, buffer, ClientOwned) && s.window.nextSerial < U64_MAX)
  {
    var start := Created(generation, count);
    NewSessionInv(generation, count);
    RunKeepsInv(start, ops);
    RunKeepsRead(start, {}, ops);
    assert {} + Copied(start, ops) == Copied(start, ops);
  }

  /** The signals say exactly who can go on: READABLE that a release or a submission can be
      read, PEER_CLOSED that the other end is gone. */
  lemma SignalsAreExact(s: Session)
    requires Inv(s)
    ensures READABLE in WindowSignals(s.window, Client) <==> Error(s.window, ReadRelease).None?
    ensures READABLE in WindowSignals(s.window, Manager) <==>
      exists p: Presentation :: Error(s.window, CopyPending(p)).None?
    ensures PEER_CLOSED in WindowSignals(s.window, Client) <==> !s.window.managerOpen
    ensures PEER_CLOSED in WindowSignals(s.window, Manager) <==> !s.window.clientOpen
    ensures Error(s.window, ReadRelease) ==
      if s.window.release.Some? then None else if s.window.managerOpen then Some(ShouldWait) else Some(PeerClosed)
  {
    if s.window.pending.Some? { assert Error(s.window, CopyPending(s.window.pending.value)).None?; }
  }

  // ------------------------------------------------------------------ class

  /** The state behind a window's two endpoints, updated in place under its lock. */
  class WindowState {
    const generation: nat
    const buffers: array<BufferState>
    var pending: Option<Presentation>
    var pendingRead: bool
    var displayed: Option<Presentation>
    var release: Option<Presentation>
    var nextSerial: nat
    var retired: bool
    var clientOpen: bool
    var managerOpen: bool

    function View(): Window
      reads this, buffers
    {
      Window(
        generation, buffers[..], pending, pendingRead, displayed, release, nextSerial, retired, clientOpen, managerOpen)
    }

    constructor (generation: nat, count: u32)
      requires generation != 0 && count >= 2
      ensures fresh(buffers) && View() == NewWindow(generation, count)
    {
      this.generation := generation;
      buffers := new BufferState[count](_ => ClientOwned);
      pending, pendingRead, displayed, release := None, false, None, None;
      nextSerial, retired, clientOpen, managerOpen := 1, false, true, true;
      new;
      assert buffers[..] == seq(count, _ => ClientOwned);
    }

    method StateOf(buffer: u32) returns (state: Option<BufferState>)
      ensures forall x :: state == Some(x) <==> HasState(View(), buffer, x)
    {
      return if buffer < buffers.Length then Some(buffers[buffer]) else None;
    }

    method WindowPresent(buffer: u32, generation: nat) returns (r: Result<Presentation, IpcError>)
      modifies this, buffers
      ensures View() == After(old(View()), Present(buffer, generation))
      ensures Error(old(View()), Present(buffer, generation)) == (if r.Ok? then None else Some(r.error))
      ensures r.Ok? ==> pending == Some(r.value)
    {
      if release.Some? { return Err(ShouldWait); }
      if !managerOpen { return Err(PeerClosed); }
      if retired { return Err(InvalidMessage); }
      if pending.Some? { return Err(ShouldWait); }
      if generation != this.generation { return Err(InvalidMessage); }
      var state := StateOf(buffer);
      if state != Some(ClientOwned) { return Err(InvalidMessage); }
      if nextSerial >= U64_MAX { return Err(InvalidMessage); }
      var p := Presentation(buffer, generation, nextSerial);
      nextSerial := nextSerial + 1;
      buffers[buffer] := Pending;
      pending := Some(p);
      pendingRead := false;
      return Ok(p);
    }

    method WindowReadRelease() returns (r: Result<Presentation, IpcError>)
      modifies this, buffers
      ensures View() == After(old(View()), ReadRelease)
      ensures Error(old(View()), ReadRelease) == (if r.Ok? then None else Some(r.error))
      ensures r.Ok? ==> old(release) == Some(r.value)
    {
      if release.None? { return Err(if managerOpen then ShouldWait else PeerClosed); }
      var p := release.value;
      var state := StateOf(p.buffer);
      if state != Some(Released) { return Err(InvalidMessage); }
      release := None;
      buffers[p.buffer] := ClientOwned;
      return Ok(p);
    }

    /** Marks the pending submission as read; the pixels themselves are not modelled. */
    method WindowCopyPending(p: Presentation) returns (r: Result<(), IpcError>)
      modifies this`pendingRead
      ensures View() == After(old(View()), CopyPending(p))
      ensures Error(old(View()), CopyPending(p)) == (if r.Ok? then None else Some(r.error))
    {
      if pending != Some(p) { return Err(InvalidMessage); }
      if p.generation != generation || p.buffer >= buffers.Length { return Err(InvalidMessage); }
      pendingRead := true;
      return Ok(());
    }

    method WindowDiscardPending(p: Presentation) returns (r: Result<(), IpcError>)
      modifies this, buffers
      ensures View() == After(old(View()), Discard(p))
      ensures Error(old(View()), Discard(p)) == (if r.Ok? then None else Some(r.error))
    {
      if pending != Some(p) { return Err(InvalidMessage); }
      if pendingRead || release.Some? { return Err(ShouldWait); }
      var state := StateOf(p.buffer);
      if state != Some(Pending) { return Err(InvalidMessage); }
      buffers[p.buffer] := Released;
      pending := None;
      release := Some(p);
      return Ok(());
    }

    method WindowCoalescePending(p: Presentation, buffer: u32, generation: nat)
      returns (r: Result<Presentation, IpcError>)
      modifies this, buffers
      ensures View() == After(old(View()), Coalesce(p, buffer, generation))
      ensures Error(old(View()), Coalesce(p, buffer, generation)) == (if r.Ok? then None else Some(r.error))
      ensures r.Ok? ==> pending == Some(r.value)
    {
      if pending != Some(p) || pendingRead || release.Some? || retired || !clientOpen || generation != this.generation {
        return Err(ShouldWait);
      }
      var was := StateOf(p.buffer);
      var next := StateOf(buffer);
      if was != Some(Pending) || next != Some(ClientOwned) { return Err(InvalidMessage); }
      if nextSerial >= U64_MAX { return Err(InvalidMessage); }
      var q := Presentation(buffer, generation, nextSerial);
      buffers[p.buffer] := Released;
      buffers[buffer] := Pending;
      pending := Some(q);
      pendingRead := false;
      release := Some(p);
      nextSerial := nextSerial + 1;
      return Ok(q);
    }

    method WindowComplete(p: Presentation, successful: bool) returns (r: Result<(), IpcError>)
      modifies this, buffers
      ensures View() == After(old(View()), Complete(p, successful))
      ensures Error(old(View()), Complete(p, successful)) == (if r.Ok? then None else Some(r.error))
    {
      if pending != Some(p) { return Err(InvalidMessage); }
      if !successful { return Ok(()); }
      var state := StateOf(p.buffer);
      if state != Some(Pending) { return Err(InvalidMessage); }
      if displayed.Some? {
        if release.Some? { return Err(ShouldWait); }
        var shown := StateOf(displayed.value.buffer);
        if shown != Some(Displayed) { return Err(InvalidMessage); }
        buffers[displayed.value.buffer] := Released;
        release := displayed;
      }
      buffers[p.buffer] := Displayed;
      pending := None;
      pendingRead := false;
      displayed := Some(p);
      return Ok(());
    }

    method WindowRetire() returns (r: Result<(), IpcError>)
      modifies this, buffers
      ensures View() == After(old(View()), Retire)
      ensures Error(old(View()), Retire) == (if r.Ok? then None else Some(r.error))
    {
      if retired { return Ok(()); }
      if pending.Some? || (displayed.Some? && release.Some?) { return Err(ShouldWait); }
      if displayed.Some? {
        var shown := StateOf(displayed.value.buffer);
        if shown != Some(Displayed) { return Err(InvalidMessage); }
        buffers[displayed.value.buffer] := Released;
        release := displayed;
        displayed := None;
      }
      retired := true;
      return Ok(());
    }
  }
}
