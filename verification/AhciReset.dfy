/** Where every accepted command ends up, and when a reset may let go of its slots. */
module AhciReset {
  import opened Objects
  import opened Ahci
  import opened AhciRuns
  import opened Totals

  // ------------------------------------------------------------- histories

  /** A disk with what has happened to it: tokens accepted, tokens in slots that SACT and CI
      both showed clear, tokens delivered, the slots and unread completions thrown away by a
      proved stop, and the PORT_CMD values read since the reset started. */
  datatype History = History(
    disk: Disk,
    accepted: seq<Token>,
    cleared: seq<Token>,
    delivered: seq<Token>,
    abandoned: seq<Slot>,
    unread: seq<Token>,
    commands: seq<PortCommand>)

  /** Whether this event reads PORT_CMD for the reset proof. */
  predicate ReadsCommand(d: Disk, e: Event)
  {
    && e.PollReset? && e.resetHw.Value?
    && d.reset != Complete && d.reset != Isolated
    && StartReset(d).resetWatchdog > 0
  }

  /** Whether this event lets go of the slots. */
  predicate Releases(d: Disk, e: Event)
  {
    && ReadsCommand(d, e) && d.reset == WaitingForFr
    && !e.resetHw.command.cr && !e.resetHw.command.fr
  }

  /** The issued slots that this event finds clear in both registers. */
  function SeenClear(d: Disk, e: Event): set<nat>
  {
    if e.Poll? && AsyncError(d).None? && Watch(d, e.interrupted).0 && e.drainHw.Registers?
    then set k | k in d.issued && k !in e.drainHw.sact && k !in e.drainHw.ci
    else {}
  }

  /** The tokens in the chosen slots from `i` on. */
  function TokensFrom(slots: seq<Slot>, chosen: set<nat>, i: nat): seq<Token>
    decreases |slots| - i
  {
    if i >= |slots| then [] else TokenAt(slots, chosen, i) + TokensFrom(slots, chosen, i + 1)
  }

  function TokenAt(slots: seq<Slot>, chosen: set<nat>, i: nat): seq<Token>
    requires i < |slots|
  {
    if i in chosen && slots[i].token.Some? then [slots[i].token.value] else []
  }

  function Record(h: History, e: Event): (r: History)
    requires Wf(h.disk)
    ensures Wf(r.disk)
  {
    Noted(h, e, Step(h.disk, e), TokensFrom(h.disk.slots, SeenClear(h.disk, e), 0), Releases(h.disk, e),
          if ReadsCommand(h.disk, e) then [e.resetHw.command] else [])
  }

  /** The history with one more event, given what it did. */
  function Noted(
    h: History, e: Event, after: (Disk, Outcome), cleared: seq<Token>, released: bool, read: seq<PortCommand>): History
  {
    History(after.0,
      h.accepted + (if e.Submit? && after.1 == Accepted then [e.command.token] else []),
      h.cleared + cleared,
      h.delivered + (if after.1.Delivered? then [after.1.token] else []),
      h.abandoned + (if released then h.disk.slots else []),
      h.unread + (if released then h.disk.ring else []),
      h.commands + read)
  }

  function RecordAll(h: History, events: seq<Event>): (r: History)
    requires Wf(h.disk)
    ensures Wf(r.disk)
    decreases |events|
  {
    if events == [] then h else RecordAll(Record(h, events[0]), events[1..])
  }

  // ----------------------------------------------------------- conservation

  ghost function Is(t: Token): Token -> nat
  {
    (x: Token) => if x == t then 1 else 0
  }

  ghost function Carries(t: Token): Slot -> nat
  {
    (s: Slot) => if s.token == Some(t) then 1 else 0
  }

  /** How often a token is held by a slot or the ring. */
  ghost function Held(d: Disk, t: Token): nat
  {
    Total(d.slots, Carries(t)) + Total(d.ring, Is(t))
  }

  ghost function Gone(h: History, t: Token): nat
  {
    Total(h.delivered, Is(t)) + Total(h.abandoned, Carries(t)) + Total(h.unread, Is(t))
  }

  /** Every accepted token is in exactly one place. */
  ghost predicate Conserved(h: History, t: Token)
  {
    Total(h.accepted, Is(t)) == Held(h.disk, t) + Gone(h, t)
  }

  lemma ActivateHolds(d: Disk, c: Command, i: nat, t: Token)
    requires i < |d.slots| && d.slots[i].token.None?
    ensures Held(Activate(d, c, i), t) == Held(d, t) + if c.token == t then 1 else 0
  {
    TotalUpdate(d.slots, i, Activate(d, c, i).slots[i], Carries(t));
  }

  lemma RetireHolds(d: Disk, i: nat, t: Token)
    requires i < |d.slots| && d.slots[i].token.Some?
    ensures Held(Retire(d, i), t) == Held(d, t)
  {
    TotalUpdate(d.slots, i, EMPTY_SLOT, Carries(t));
    TotalAppend(d.ring, d.slots[i].token.value, Is(t));
  }

  lemma {:induction false} RetireFromHolds(d: Disk, completed: set<nat>, i: nat, t: Token)
    requires Wf(d) && d.reset == Running
    ensures Held(RetireFrom(d, completed, i).0, t) == Held(d, t)
    decreases d.config.slotCount - i
  {
    if i < d.config.slotCount {
      if i !in completed {
        RetireFromHolds(d, completed, i + 1, t);
      } else if d.slots[i].token.Some? && |d.ring| < d.config.slotCount {
        RetireHolds(d, i, t);
        RetireFromHolds(Retire(d, i), completed, i + 1, t);
      }
    }
  }

  lemma PopHolds(d: Disk, otherwise: Outcome, t: Token)
    requires !otherwise.Delivered?
    ensures Held(d, t) == Held(Pop(d, otherwise).0, t) + if Pop(d, otherwise).1 == Delivered(t) then 1 else 0
  {
  }

  lemma RearmHolds(d: Disk, ok: bool, t: Token)
    ensures Held(Rearm(d, ok).0, t) == Held(d, t)
  {
  }

  lemma DrainHolds(d: Disk, hw: DrainHw, t: Token)
    requires Wf(d) && d.reset == Running
    ensures Held(Drain(d, hw).0, t) == Held(d, t)
  {
    if hw.Registers? {
      var completed := Completed(d.issued, hw.sact, hw.ci);
      RetireFromHolds(d, completed, 0, t);
      var after := RetireFrom(d, completed, 0).0;
      RearmHolds(d, hw.rearmOk, t);
      RearmHolds(after.(exclusive := after.exclusive && after.issued != {}), hw.rearmOk, t);
    }
  }

  lemma PollHolds(d: Disk, interrupted: bool, hw: DrainHw, t: Token)
    requires Wf(d)
    ensures Held(d, t) == Held(AfterPoll(d, interrupted, hw).0, t) +
                          if AfterPoll(d, interrupted, hw).1 == Delivered(t) then 1 else 0
  {
    if d.reset != Running {
      PopHolds(d, Failed(if d.reset == Isolated then QuarantinedDevice else DeviceReset), t);
    } else if AsyncError(d).None? {
      var ticked := d.(countdown := Watch(d, interrupted).1);
      DrainHolds(ticked, hw, t);
      PopHolds(ticked, Waiting, t);
      PopHolds(Drain(ticked, hw).0, Waiting, t);
    }
  }

  lemma IsolateHolds(d: Disk, t: Token)
    requires Wf(d)
    ensures Held(Isolate(d), t) == Held(d, t)
  {
    TotalPointwise(Isolate(d).slots, d.slots, Carries(t));
  }

  lemma ReleaseHolds(d: Disk, t: Token)
    requires Core(d)
    ensures Held(ReleaseAll(d), t) == 0
  {
    forall k | 0 <= k < MAX_SLOTS ensures Carries(t)(ReleaseAll(d).slots[k]) == 0 { assert SlotAgrees(d, k); }
    TotalZero(ReleaseAll(d).slots, Carries(t));
  }

  lemma AdvanceHolds(d: Disk, hw: ResetHw, t: Token)
    requires Core(d) && d.reset !in {Running, Complete, Isolated}
    ensures Held(AdvanceReset(d, hw).0, t) ==
      if d.reset == WaitingForFr && hw.Value? && !hw.command.cr && !hw.command.fr then 0 else Held(d, t)
  {
    IsolateHolds(d, t);
    ReleaseHolds(d, t);
  }

  lemma PollResetHolds(d: Disk, hw: ResetHw, t: Token)
    requires Inv(d)
    ensures Held(AfterPollReset(d, hw).0, t) == if Releases(d, PollReset(hw)) then 0 else Held(d, t)
  {
    var started := StartReset(d);
    if d.reset != Complete && d.reset != Isolated {
      IsolateHolds(started, t);
      if started.resetWatchdog > 0 {
        var ticked := started.(resetWatchdog := started.resetWatchdog - 1);
        SameSlotsKeepCore(d, ticked);
        AdvanceHolds(ticked, hw, t);
      }
    }
  }

  lemma SubmitHolds(d: Disk, c: Command, hw: SubmitHw, t: Token)
    requires Inv(d)
    ensures Held(AfterSubmit(d, c, hw).0, t) ==
      Held(d, t) + if AfterSubmit(d, c, hw).1 == Accepted && c.token == t then 1 else 0
  {
    var i := SubmitShape(d, c, hw);
    if AfterSubmit(d, c, hw).1 == Accepted {
      assert SlotAgrees(d, i);
      ActivateHolds(d, c, i, t);
    }
  }

  lemma StepHolds(d: Disk, e: Event, t: Token)
    requires Inv(d)
    ensures Releases(d, e) ==> Held(Step(d, e).0, t) == 0
    ensures !Releases(d, e) ==>
      Held(Step(d, e).0, t) + (if Step(d, e).1 == Delivered(t) then 1 else 0) ==
      Held(d, t) + (if e.Submit? && Step(d, e).1 == Accepted && e.command.token == t then 1 else 0)
  {
    match e
    case Submit(c, hw) => SubmitHolds(d, c, hw, t);
    case Poll(interrupted, hw) => PollHolds(d, interrupted, hw, t);
    case Cancel(_) =>
    case PollReset(hw) => PollResetHolds(d, hw, t);
  }

  /** What one event adds to the history. */
  lemma RecordAdds(h: History, e: Event, t: Token)
    requires Wf(h.disk)
    ensures Total(Record(h, e).accepted, Is(t)) == Total(h.accepted, Is(t)) +
      if e.Submit? && Step(h.disk, e).1 == Accepted && e.command.token == t then 1 else 0
    ensures Gone(Record(h, e), t) == Gone(h, t) +
      (if Step(h.disk, e).1 == Delivered(t) then 1 else 0) + (if Releases(h.disk, e) then Held(h.disk, t) else 0)
  {
    NotedAdds(h, e, Step(h.disk, e), TokensFrom(h.disk.slots, SeenClear(h.disk, e), 0), Releases(h.disk, e),
              if ReadsCommand(h.disk, e) then [e.resetHw.command] else [], t);
  }

  lemma NotedAdds(
    h: History, e: Event, after: (Disk, Outcome), cleared: seq<Token>, released: bool, read: seq<PortCommand>, t: Token)
    ensures Total(Noted(h, e, after, cleared, released, read).accepted, Is(t)) == Total(h.accepted, Is(t)) +
      if e.Submit? && after.1 == Accepted && e.command.token == t then 1 else 0
    ensures Gone(Noted(h, e, after, cleared, released, read), t) == Gone(h, t) +
      (if after.1 == Delivered(t) then 1 else 0) + (if released then Held(h.disk, t) else 0)
  {
    TotalWith(h.accepted, e.Submit? && after.1 == Accepted, if e.Submit? then [e.command.token] else [], Is(t));
    TotalWith(h.delivered, after.1.Delivered?, if after.1.Delivered? then [after.1.token] else [], Is(t));
    TotalWith(h.abandoned, released, h.disk.slots, Carries(t));
    TotalWith(h.unread, released, h.disk.ring, Is(t));
  }

  lemma TotalWith<T(!new)>(s: seq<T>, added: bool, more: seq<T>, f: T -> nat)
    ensures Total(s + (if added then more else []), f) == Total(s, f) + if added then Total(more, f) else 0
  {
    TotalConcat(s, if added then more else [], f);
  }

  lemma RecordConserves(h: History, e: Event, t: Token)
    requires Inv(h.disk) && Conserved(h, t)
    ensures Conserved(Record(h, e), t)
  {
    RecordAdds(h, e, t);
    StepHolds(h.disk, e, t);
  }

  // ----------------------------------------------------------- reset safety

  predicate CrSeenClear(commands: seq<PortCommand>)
  {
    exists i :: 0 <= i < |commands| && !commands[i].cr
  }

  /** CR was read clear, and a later read showed CR and FR both clear. */
  predicate StopObserved(commands: seq<PortCommand>)
  {
    exists i, j :: 0 <= i < j < |commands| && !commands[i].cr && !commands[j].cr && !commands[j].fr
  }

  ghost predicate Proof(h: History)
  {
    && (h.disk.reset == WaitingForFr ==> CrSeenClear(h.commands))
    && (h.disk.reset == Complete ==> StopObserved(h.commands))
  }

  /** How each event moves the reset machine. */
  lemma ResetMoves(d: Disk, e: Event)
    requires Wf(d)
    ensures Step(d, e).0.reset == Complete <==> d.reset == Complete || Releases(d, e)
    ensures Step(d, e).0.reset == WaitingForFr && d.reset != WaitingForFr ==>
      ReadsCommand(d, e) && !e.resetHw.command.cr
    ensures Step(d, e).0.reset == Running ==> d.reset == Running
    ensures d.reset == Isolated ==> Step(d, e).0.reset == Isolated
  {
  }

  lemma RecordKeepsProof(h: History, e: Event)
    requires Wf(h.disk) && Proof(h)
    ensures Proof(Record(h, e))
  {
    ResetMoves(h.disk, e);
    var n, r := |h.commands|, Record(h, e);
    if CrSeenClear(h.commands) {
      var i :| 0 <= i < n && !h.commands[i].cr;
      assert !r.commands[i].cr;
      if Releases(h.disk, e) { assert !r.commands[n].cr; }
    } else if ReadsCommand(h.disk, e) && !e.resetHw.command.cr {
      assert !r.commands[n].cr;
    }
    if StopObserved(h.commands) {
      var i, j :| 0 <= i < j < n && !h.commands[i].cr && !h.commands[j].cr && !h.commands[j].fr;
      assert !r.commands[i].cr && !r.commands[j].cr && !r.commands[j].fr;
    }
  }

  /** A freshly started driver. */
  predicate Fresh(h: History)
  {
    && Initial(h.disk) && h.accepted == [] && h.cleared == [] && h.delivered == []
    && h.abandoned == [] && h.unread == [] && h.commands == []
  }

  ghost predicate Sound(h: History)
  {
    Inv(h.disk) && Proof(h) && forall t :: Conserved(h, t)
  }

  lemma FreshIsSound(h: History)
    requires Fresh(h)
    ensures Sound(h)
  {
    InitialInv(h.disk);
    forall t ensures Conserved(h, t) { TotalZero(h.disk.slots, Carries(t)); }
  }

  lemma {:induction false} RunsStaySound(h: History, events: seq<Event>)
    requires Sound(h)
    ensures Sound(RecordAll(h, events))
    decreases |events|
  {
    if events != [] {
      StepKeepsInv(h.disk, events[0]);
      RecordKeepsProof(h, events[0]);
      forall t ensures Conserved(Record(h, events[0]), t) { RecordConserves(h, events[0], t); }
      RunsStaySound(Record(h, events[0]), events[1..]);
    }
  }

  /** No token is delivered more often than it was accepted, and what was accepted and not
      delivered is in a slot, in the ring, or was thrown away by a proved stop. */
  lemma DeliveredOncePerAcceptance(h: History, events: seq<Event>, t: Token)
    requires Fresh(h)
    ensures Conserved(RecordAll(h, events), t)
    ensures Total(RecordAll(h, events).delivered, Is(t)) <= Total(RecordAll(h, events).accepted, Is(t))
  {
    FreshIsSound(h);
    RunsStaySound(h, events);
    assert Conserved(RecordAll(h, events), t);
  }

  // --------------------------------------------------- delivered once cleared

  lemma {:induction false} SameTokens(a: seq<Slot>, b: seq<Slot>, chosen: set<nat>, i: nat)
    requires |a| == |b| && forall k :: i <= k < |a| ==> a[k] == b[k]
    ensures TokensFrom(a, chosen, i) == TokensFrom(b, chosen, i)
    decreases |a| - i
  {
    if i < |a| {
      assert TokenAt(a, chosen, i) == TokenAt(b, chosen, i);
      SameTokens(a, b, chosen, i + 1);
    }
  }

  /** What retiring adds to the ring comes out of the completed slots. */
  lemma {:induction false} RetireFromRing(d: Disk, completed: set<nat>, i: nat, t: Token)
    requires Wf(d) && d.reset == Running
    ensures Total(RetireFrom(d, completed, i).0.ring, Is(t)) <=
            Total(d.ring, Is(t)) + Total(TokensFrom(d.slots, completed, i), Is(t))
    decreases d.config.slotCount - i
  {
    if i < d.config.slotCount {
      if i !in completed {
        RetireFromRing(d, completed, i + 1, t);
        SkipToken(d.slots, completed, i);
      } else if d.slots[i].token.Some? && |d.ring| < d.config.slotCount {
        RetireFromRing(Retire(d, i), completed, i + 1, t);
        RetireMovesToken(d, completed, i, t);
      }
    }
  }

  lemma SkipToken(slots: seq<Slot>, chosen: set<nat>, i: nat)
    requires i < |slots| && i !in chosen
    ensures TokensFrom(slots, chosen, i) == TokensFrom(slots, chosen, i + 1)
  {
  }

  lemma RetireMovesToken(d: Disk, completed: set<nat>, i: nat, t: Token)
    requires i < |d.slots| && d.slots[i].token.Some? && i in completed
    ensures Total(Retire(d, i).ring, Is(t)) + Total(TokensFrom(Retire(d, i).slots, completed, i + 1), Is(t)) ==
            Total(d.ring, Is(t)) + Total(TokensFrom(d.slots, completed, i), Is(t))
  {
    var token := d.slots[i].token.value;
    SameTokens(Retire(d, i).slots, d.slots, completed, i + 1);
    TotalAppend(d.ring, token, Is(t));
    TotalConcat([token], TokensFrom(d.slots, completed, i + 1), Is(t));
    TotalAppend([], token, Is(t));
    assert [] + [token] == [token];
  }

  lemma PopRing(d: Disk, otherwise: Outcome, t: Token)
    requires !otherwise.Delivered?
    ensures Total(Pop(d, otherwise).0.ring, Is(t)) + (if Pop(d, otherwise).1 == Delivered(t) then 1 else 0) ==
            Total(d.ring, Is(t))
  {
  }

  lemma RearmRing(d: Disk, ok: bool)
    ensures Rearm(d, ok).0.ring == d.ring
  {
  }

  /** What draining adds to the ring comes out of the slots that read clear. */
  lemma DrainRing(d: Disk, hw: DrainHw, t: Token)
    requires Wf(d) && d.reset == Running
    ensures var clear := if hw.Registers? then Completed(d.issued, hw.sact, hw.ci) else {};
            Total(Drain(d, hw).0.ring, Is(t)) <= Total(d.ring, Is(t)) + Total(TokensFrom(d.slots, clear, 0), Is(t))
  {
    if hw.Registers? {
      var completed := Completed(d.issued, hw.sact, hw.ci);
      RetireFromRing(d, completed, 0, t);
      var after := RetireFrom(d, completed, 0).0;
      RearmRing(d, hw.rearmOk);
      RearmRing(after.(exclusive := after.exclusive && after.issued != {}), hw.rearmOk);
    }
  }

  lemma PollRing(d: Disk, interrupted: bool, hw: DrainHw, t: Token)
    requires Wf(d)
    ensures var after := AfterPoll(d, interrupted, hw);
            Total(after.0.ring, Is(t)) + (if after.1 == Delivered(t) then 1 else 0) <=
            Total(d.ring, Is(t)) + Total(TokensFrom(d.slots, SeenClear(d, Poll(interrupted, hw)), 0), Is(t))
  {
    if d.reset != Running {
      PopRing(d, Failed(if d.reset == Isolated then QuarantinedDevice else DeviceReset), t);
    } else if AsyncError(d).None? {
      var ticked := d.(countdown := Watch(d, interrupted).1);
      PopRing(ticked, Waiting, t);
      if Watch(d, interrupted).0 {
        DrainRing(ticked, hw, t);
        PopRing(Drain(ticked, hw).0, Waiting, t);
        assert hw.Registers? ==> Completed(d.issued, hw.sact, hw.ci) == SeenClear(d, Poll(interrupted, hw));
      }
    }
  }

  /** Everything in the ring or delivered was seen clear first. */
  ghost predicate ClearedFirst(h: History, t: Token)
  {
    Total(h.disk.ring, Is(t)) + Total(h.delivered, Is(t)) <= Total(h.cleared, Is(t))
  }

  lemma StepRing(d: Disk, e: Event, t: Token)
    requires Wf(d)
    ensures Total(Step(d, e).0.ring, Is(t)) + (if Step(d, e).1 == Delivered(t) then 1 else 0) <=
            Total(d.ring, Is(t)) + Total(TokensFrom(d.slots, SeenClear(d, e), 0), Is(t))
  {
    if e.Poll? { PollRing(d, e.interrupted, e.drainHw, t); } else { OtherRing(d, e); }
  }

  /** Nothing but a poll adds to the ring or delivers. */
  lemma OtherRing(d: Disk, e: Event)
    requires Wf(d) && !e.Poll?
    ensures Step(d, e).0.ring in {d.ring, []} && !Step(d, e).1.Delivered?
  {
    match e
    case Submit(c, hw) => SubmitRing(d, c, hw);
    case Cancel(token) =>
    case PollReset(hw) => ResetRing(d, hw);
  }

  lemma SubmitRing(d: Disk, c: Command, hw: SubmitHw)
    requires Wf(d)
    ensures AfterSubmit(d, c, hw).0.ring == d.ring && !AfterSubmit(d, c, hw).1.Delivered?
  {
  }

  lemma ResetRing(d: Disk, hw: ResetHw)
    requires Wf(d)
    ensures AfterPollReset(d, hw).0.ring in {d.ring, []} && !AfterPollReset(d, hw).1.Delivered?
  {
  }

  lemma RecordKeepsClearedFirst(h: History, e: Event, t: Token)
    requires Wf(h.disk) && ClearedFirst(h, t)
    ensures ClearedFirst(Record(h, e), t)
  {
    var after := Step(h.disk, e);
    StepRing(h.disk, e, t);
    TotalConcat(h.delivered, if after.1.Delivered? then [after.1.token] else [], Is(t));
    TotalConcat(h.cleared, TokensFrom(h.disk.slots, SeenClear(h.disk, e), 0), Is(t));
  }

  lemma {:induction false} RunsKeepClearedFirst(h: History, events: seq<Event>, t: Token)
    requires Wf(h.disk) && ClearedFirst(h, t)
    ensures ClearedFirst(RecordAll(h, events), t)
    decreases |events|
  {
    if events != [] {
      RecordKeepsClearedFirst(h, events[0], t);
      RunsKeepClearedFirst(Record(h, events[0]), events[1..], t);
    }
  }

  /** Over every run, a token is delivered at most as often as its slot was seen clear in
      SACT and CI at once. */
  lemma DeliveredOnlyOnceCleared(h: History, events: seq<Event>, t: Token)
    requires Fresh(h)
    ensures Total(RecordAll(h, events).delivered, Is(t)) <= Total(RecordAll(h, events).cleared, Is(t))
  {
    RunsKeepClearedFirst(h, events, t);
  }

  // ------------------------------------------------------------ once resetting

  /** The same command is still in slot `i`. */
  predicate StillThere(d: Disk, e: Disk, i: nat)
  {
    && |d.slots| == |e.slots| && i < |d.slots|
    && e.slots[i] in {d.slots[i], Fenced(d.slots[i])} && (i in d.issued ==> i in e.issued)
  }

  /** Once a reset has started, a slot is left alone unless the stop has been proved. */
  lemma ResettingKeepsSlots(d: Disk, e: Event, i: nat)
    requires Inv(d) && d.reset != Running && i < MAX_SLOTS
    ensures Releases(d, e) || StillThere(d, Step(d, e).0, i)
    ensures d.reset == Isolated ==> Step(d, e).0.slots == d.slots && Step(d, e).0.issued == d.issued
  {
    if e.Submit? { var _ := SubmitShape(d, e.command, e.submitHw); }
  }

  /** Over every run: the command in an issued slot of a resetting port stays put, or CR
      was read clear and later CR and FR together. */
  lemma {:induction false} ReleasedOnlyAfterStop(h: History, events: seq<Event>, i: nat)
    requires Sound(h) && h.disk.reset != Running && i in h.disk.issued && i < MAX_SLOTS
    ensures StillThere(h.disk, RecordAll(h, events).disk, i) || StopObserved(RecordAll(h, events).commands)
    decreases |events|
  {
    if events != [] {
      var e, next := events[0], Record(h, events[0]);
      RunsStaySound(h, [e]);
      assert RecordAll(h, [e]) == RecordAll(next, [e][1..]) == next;
      ResetMoves(h.disk, e);
      ResettingKeepsSlots(h.disk, e, i);
      if Releases(h.disk, e) {
        StopStaysObserved(next, events[1..]);
      } else {
        ReleasedOnlyAfterStop(next, events[1..], i);
      }
    }
  }

  lemma {:induction false} StopStaysObserved(h: History, events: seq<Event>)
    requires Wf(h.disk) && StopObserved(h.commands)
    ensures StopObserved(RecordAll(h, events).commands)
    decreases |events|
  {
    if events != [] {
      var i, j :| 0 <= i < j < |h.commands| && !h.commands[i].cr && !h.commands[j].cr && !h.commands[j].fr;
      var r := Record(h, events[0]);
      assert !r.commands[i].cr && !r.commands[j].cr && !r.commands[j].fr;
      StopStaysObserved(r, events[1..]);
    }
  }

  /** Without that proof the commands stay quarantined for ever. */
  lemma {:induction false} QuarantineIsForever(d: Disk, events: seq<Event>)
    requires Inv(d) && d.reset == Isolated
    ensures Run(d, events).reset == Isolated
    ensures Run(d, events).slots == d.slots && Run(d, events).issued == d.issued
    ensures forall i :: i in d.issued ==> i < MAX_SLOTS && Run(d, events).slots[i].state == Quarantined
    decreases |events|
  {
    if events == [] {
      forall i | i in d.issued ensures i < MAX_SLOTS && d.slots[i].state == Quarantined { assert SlotAgrees(d, i); }
    } else {
      StepKeepsInv(d, events[0]);
      ResetMoves(d, events[0]);
      ResettingKeepsSlots(d, events[0], 0);
      QuarantineIsForever(Step(d, events[0]).0, events[1..]);
    }
  }

  /** A port that has started resetting never takes a command again. */
  lemma {:induction false} NeverAcceptsAgain(d: Disk, events: seq<Event>, c: Command, hw: SubmitHw)
    requires Wf(d) && d.reset != Running
    ensures AfterSubmit(Run(d, events), c, hw) == (Run(d, events), Failed(DeviceReset))
    decreases |events|
  {
    if events != [] {
      ResetMoves(d, events[0]);
      NeverAcceptsAgain(Step(d, events[0]).0, events[1..], c, hw);
    }
  }

  // -------------------------------------------------------------- termination

  /** How many more reset polls it can take to settle. */
  function Patience(d: Disk): nat
  {
    if d.reset == Complete || d.reset == Isolated then 0
    else if d.reset == Running then RESET_WATCHDOG_POLLS + 1
    else d.resetWatchdog + 1
  }

  function ResetPolls(events: seq<Event>): nat
  {
    if events == [] then 0 else (if events[0].PollReset? then 1 else 0) + ResetPolls(events[1..])
  }

  lemma PollResetLosesPatience(d: Disk, hw: ResetHw)
    requires Wf(d)
    ensures Patience(d) == 0 ==> AfterPollReset(d, hw).0 == d
    ensures Patience(d) > 0 ==> Patience(AfterPollReset(d, hw).0) < Patience(d)
  {
  }

  lemma PatienceShrinks(d: Disk, e: Event)
    requires Wf(d)
    ensures Patience(Step(d, e).0) <= Patience(d)
    ensures e.PollReset? ==> Patience(d) == 0 || Patience(Step(d, e).0) < Patience(d)
  {
    match e
    case Submit(_, _) =>
    case Poll(_, _) =>
    case Cancel(_) =>
    case PollReset(hw) => PollResetLosesPatience(d, hw);
  }

  /** A reset settles within 4097 reset polls, whatever the registers read and whatever
      other calls come in between. */
  lemma {:induction false} ResetSettles(d: Disk, events: seq<Event>)
    requires Inv(d)
    ensures ResetPolls(events) >= Patience(d) ==> Run(d, events).reset in {Complete, Isolated}
    ensures Patience(d) <= RESET_WATCHDOG_POLLS + 1
    decreases |events|
  {
    if events != [] {
      PatienceShrinks(d, events[0]);
      StepKeepsInv(d, events[0]);
      ResetSettles(Step(d, events[0]).0, events[1..]);
    }
  }

  // ------------------------------------------------ without a ready poll first

  /** Two slots; two commands finish at once, one is delivered, two more are submitted
      without asking whether the port is ready, and both finish: the ring is full. */
  lemma OverflowWithoutPolling(d: Disk, c: Command, hw: SubmitHw, idle: DrainHw)
    requires Initial(d) && d.config.slotCount == 2 && AsyncError(d).None?
    requires RequestError(d, c).None? && !IsFlush(c.operation)
    requires hw == SubmitHw(None, None, Some({}), true) && idle == Registers({}, {}, true)
    ensures
      var submit, poll := Submit(c, hw), Poll(true, idle);
      Step(Run(d, [submit, submit, poll, submit, submit]), poll).1 == Failed(CompletionQueueFull)
  {
    var submit, poll := Submit(c, hw), Poll(true, idle);
    var d2 := TwoSubmits(d, c, hw);
    BothRetire(d2, c.token);
    var d3 := Step(d2, poll).0;
    var d5 := TwoSubmits(d3, c, hw);
    InitialInv(d);
    RunUnfolds(d, [submit, submit, poll, submit, submit]);
    RunKeepsInv(d, [submit, submit, poll, submit, submit]);
    assert Completed(d5.issued, {}, {}) == {0, 1};
    PollOverflowsExactly(d5, true, idle);
  }

  /** Two submissions fill the two slots. */
  lemma TwoSubmits(d: Disk, c: Command, hw: SubmitHw) returns (after: Disk)
    requires Wf(d) && d.config.slotCount == 2 && d.slots[0] == EMPTY_SLOT && d.slots[1] == EMPTY_SLOT
    requires AsyncError(d).None? && RequestError(d, c).None? && !IsFlush(c.operation) && !d.exclusive
    requires hw == SubmitHw(None, None, Some({}), true)
    ensures Wf(Step(d, Submit(c, hw)).0) && after == Step(Step(d, Submit(c, hw)).0, Submit(c, hw)).0
    ensures after == Activate(Activate(d, c, 0), c, 1)
  {
    var one := Step(d, Submit(c, hw)).0;
    assert one == Activate(d, c, 0) && FirstFree(one.slots, 2, 0) == Some(1);
    after := Step(one, Submit(c, hw)).0;
  }

  /** With both slots done, one token is delivered and one stays in the ring. */
  lemma BothRetire(d: Disk, t: Token)
    requires Wf(d) && d.config.slotCount == 2 && AsyncError(d).None?
    requires d.issued == {0, 1} && d.ring == [] && d.inFlight == 2
    requires d.slots[0].token == Some(t) && d.slots[1].token == Some(t) && !d.exclusive
    ensures AfterPoll(d, true, Registers({}, {}, true)).0 ==
      d.(slots := d.slots[0 := EMPTY_SLOT][1 := EMPTY_SLOT], issued := {}, inFlight := 0, ring := [t],
         countdown := INTERRUPT_WATCHDOG_POLLS)
  {
    var ticked := d.(countdown := INTERRUPT_WATCHDOG_POLLS);
    var r0 := Retire(ticked, 0);
    var r1 := Retire(r0, 1);
    assert RetireFrom(r1, {0, 1}, 2) == (r1, None);
    assert RetireFrom(r0, {0, 1}, 1) == (r1, None);
    assert RetireFrom(ticked, {0, 1}, 0) == (r1, None);
    assert Completed(d.issued, {}, {}) == {0, 1};
    assert r1.issued == {} && r1.ring == [t, t] && [t, t][1..] == [t];
  }

  lemma RunUnfolds(d: Disk, events: seq<Event>)
    requires Wf(d) && |events| == 5
    ensures Run(d, events) ==
      Step(Step(Step(Step(Step(d, events[0]).0, events[1]).0, events[2]).0, events[3]).0, events[4]).0
  {
    var d1 := Step(d, events[0]).0;
    var d2 := Step(d1, events[1]).0;
    var d3 := Step(d2, events[2]).0;
    var d4 := Step(d3, events[3]).0;
    assert events[1..][1..] == events[2..] && events[2..][1..] == events[3..] && events[3..][1..] == events[4..];
    assert Run(d1, events[1..]) == Run(d2, events[2..]);
    assert Run(d2, events[2..]) == Run(d3, events[3..]);
    assert Run(d3, events[3..]) == Run(d4, events[4..]);
    assert Run(d4, events[4..]) == Run(Step(d4, events[4]).0, []) by { assert events[4..][1..] == []; }
  }
}
