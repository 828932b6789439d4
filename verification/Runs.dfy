/** What holds in every world any sequence of operations can produce. */
module Runs {
  import opened Objects
  import opened Handles
  import opened Transfers
  import opened Channels
  import opened ChannelGraph
  import opened World
  import opened WorldInvariant

  lemma InitialInv()
    ensures Inv(INITIAL)
  {
    forall o ensures References(INITIAL, o) == 0 { }
  }

  /** Channel ownership is acyclic in every run, each direction is a bounded FIFO of what
      was sent, and a side that has closed holds nothing. */
  lemma RunsKeepChannelsSound(ops: seq<Op>, c: nat)
    ensures Acyclic(Run(INITIAL, ops).channels)
    ensures c < |Run(INITIAL, ops).channels| ==> ChannelInv(Run(INITIAL, ops).channels[c])
  {
    InitialInv();
    RunKeepsInv(INITIAL, ops);
  }

  lemma FewReferences(w: World, o: Object)
    requires Inv(w) && o in w.granted && DUPLICATE !in w.granted[o]
    ensures References(w, o) <= 1
  {
    assert References(w, o) == w.strong[o];
  }

  // ------------------------------------------------------------ attenuation

  ghost predicate GrantsKept(w: World, w': World)
  {
    forall o :: o in w.granted ==> o in w'.granted && w'.granted[o] == w.granted[o]
  }

  lemma CreateChannelKeepsGrants(w: World, left: nat, right: nat)
    requires Wf(w) && left < |w.tables| && right < |w.tables| && RoomForChannel(w, left, right)
    requires forall o :: o in w.granted && o.Endpoint? ==> IsEndpoint(w, o)
    ensures GrantsKept(w, AfterCreateChannel(w, left, right))
  {
  }

  lemma StepKeepsGrants(w: World, op: Op)
    requires Wf(w) && forall o :: o in w.granted && o.Endpoint? ==> IsEndpoint(w, o)
    ensures GrantsKept(w, Step(w, op))
  {
    match op
    case CreateObject(t, id, rights) =>
    case CreateChannel(left, right) =>
      if left < |w.tables| && right < |w.tables| && RoomForChannel(w, left, right) {
        CreateChannelKeepsGrants(w, left, right);
      }
    case _ => StepGrantsNothing(w, op);
  }

  lemma StepGrantsNothing(w: World, op: Op)
    requires Wf(w) && !op.CreateObject? && !op.CreateChannel?
    ensures Step(w, op).granted == w.granted
  {
    match op
    case WriteChannel(t, channel, bytes, batch) => WriteGrantsNothing(w, t, channel, bytes, batch);
    case ReadChannel(t, channel, byteRoom, handleRoom) => ReadGrantsNothing(w, t, channel, byteRoom, handleRoom);
    case CopyHandle(t, handle, rights) => CopyGrantsNothing(w, t, handle, rights);
    case TransferHandles(source, destination, batch) => TransferGrantsNothing(w, source, destination, batch);
    case CloseHandle(t, handle) => CloseGrantsNothing(w, t, handle);
    case DropTable(t) => DropTableGrantsNothing(w, t);
    case _ => SmallStepGrantsNothing(w, op);
  }

  lemma SmallStepGrantsNothing(w: World, op: Op)
    requires Wf(w)
    requires op.NewTable? || op.ExtendTable? || op.ForgetBuffer? || op.DropReference? || op.FinishDrop?
    ensures Step(w, op).granted == w.granted
  {
  }

  lemma CloseGrantsNothing(w: World, t: nat, handle: u32)
    requires Wf(w)
    ensures Step(w, CloseHandle(t, handle)).granted == w.granted
  {
  }

  lemma DropTableGrantsNothing(w: World, t: nat)
    requires Wf(w)
    ensures Step(w, DropTable(t)).granted == w.granted
  {
  }

  lemma WriteGrantsNothing(w: World, t: nat, channel: u32, bytes: seq<u8>, batch: seq<Disposition>)
    requires Wf(w)
    ensures Step(w, WriteChannel(t, channel, bytes, batch)).granted == w.granted
  {
  }

  lemma ReadGrantsNothing(w: World, t: nat, channel: u32, byteRoom: nat, handleRoom: nat)
    requires Wf(w)
    ensures Step(w, ReadChannel(t, channel, byteRoom, handleRoom)).granted == w.granted
  {
  }

  lemma CopyGrantsNothing(w: World, t: nat, handle: u32, rights: Rights)
    requires Wf(w)
    ensures Step(w, CopyHandle(t, handle, rights)).granted == w.granted
  {
  }

  lemma TransferGrantsNothing(w: World, source: nat, destination: nat, batch: seq<Disposition>)
    requires Wf(w)
    ensures Step(w, TransferHandles(source, destination, batch)).granted == w.granted
  {
  }

  lemma {:induction false} RunKeepsGrants(w: World, ops: seq<Op>)
    requires Inv(w)
    ensures GrantsKept(w, Run(w, ops))
    decreases |ops|
  {
    if ops != [] {
      StepKeepsInv(w, ops[0]);
      StepKeepsGrants(w, ops[0]);
      RunKeepsGrants(Step(w, ops[0]), ops[1..]);
    }
  }

  /** Whatever is done later, no reference to an object, in any table, queue or pending
      destructor, carries more than the object was installed with; and an object
      installed without DUPLICATE has at most one reference anywhere. */
  lemma AuthorityNeverGrows(w: World, ops: seq<Op>, o: Object, e: HandleEntry)
    requires Inv(w) && o in w.granted && e.obj == o
    ensures var w' := Run(w, ops);
            && (forall t, i :: 0 <= t < |w'.tables| && 0 <= i < |w'.tables[t]| && w'.tables[t][i].entry == Some(e)
                  ==> e.rights <= w.granted[o])
            && (forall c :: 0 <= c < |w'.channels| && e in Entries(w'.channels[c]) ==> e.rights <= w.granted[o])
            && (e in w'.dropping ==> e.rights <= w.granted[o])
            && (DUPLICATE !in w.granted[o] ==> References(w', o) <= 1)
  {
    var w' := Run(w, ops);
    RunKeepsInv(w, ops);
    RunKeepsGrants(w, ops);
    ReferencesWithin(w', e);
    if DUPLICATE !in w.granted[o] { FewReferences(w', o); }
  }

  lemma ReferencesWithin(w: World, e: HandleEntry)
    requires Inv(w) && e.obj in w.granted
    ensures forall t, i :: 0 <= t < |w.tables| && 0 <= i < |w.tables[t]| && w.tables[t][i].entry == Some(e)
              ==> e.rights <= w.granted[e.obj]
    ensures forall c :: 0 <= c < |w.channels| && e in Entries(w.channels[c]) ==> e.rights <= w.granted[e.obj]
    ensures e in w.dropping ==> e.rights <= w.granted[e.obj]
  {
    forall t, i | 0 <= t < |w.tables| && 0 <= i < |w.tables[t]| && w.tables[t][i].entry == Some(e)
      ensures e.rights <= w.granted[e.obj]
    {
      assert TableOk(w.granted, w.tables[t]);
    }
  }

  // --------------------------------------------------------------- handles

  ghost predicate TablesEvolve(w: World, w': World)
  {
    |w.tables| <= |w'.tables| && forall t :: 0 <= t < |w.tables| ==> Evolves(w.tables[t], w'.tables[t])
  }

  lemma EvolvesRefl(slots: seq<HandleSlot>)
    ensures Evolves(slots, slots)
  {
  }

  lemma OneTableEvolves(w: World, w': World, t: nat, slots: seq<HandleSlot>)
    requires t < |w.tables| && w'.tables == w.tables[t := slots] && Evolves(w.tables[t], slots)
    ensures TablesEvolve(w, w')
  {
    forall k | 0 <= k < |w.tables| ensures Evolves(w.tables[k], w'.tables[k]) { EvolvesRefl(w.tables[k]); }
  }

  lemma SameTablesEvolve(w: World, w': World)
    requires w.tables <= w'.tables
    ensures TablesEvolve(w, w')
  {
    forall k | 0 <= k < |w.tables| ensures Evolves(w.tables[k], w'.tables[k]) { EvolvesRefl(w.tables[k]); }
  }

  lemma TwoTablesEvolve(w: World, w': World, a: nat, b: nat, first: seq<HandleSlot>, second: seq<HandleSlot>)
    requires a < |w.tables| && b < |w.tables| && a != b && w'.tables == w.tables[a := first][b := second]
    requires Evolves(w.tables[a], first) && Evolves(w.tables[b], second)
    ensures TablesEvolve(w, w')
  {
    forall k | 0 <= k < |w.tables| ensures Evolves(w.tables[k], w'.tables[k]) { EvolvesRefl(w.tables[k]); }
  }

  lemma CreateChannelEvolves(w: World, left: nat, right: nat)
    requires Wf(w) && left < |w.tables| && right < |w.tables| && RoomForChannel(w, left, right)
    ensures TablesEvolve(w, AfterCreateChannel(w, left, right))
  {
    var a, b := [NewEndpoint(w, 0)], [NewEndpoint(w, 1)];
    var w' := AfterCreateChannel(w, left, right);
    if left == right {
      var both := [NewEndpoint(w, 0), NewEndpoint(w, 1)];
      ReceivedEvolves(w.tables[left], both);
      OneTableEvolves(w, w', left, Received(w.tables[left], both));
    } else {
      ReceivedEvolves(w.tables[left], a);
      ReceivedEvolves(w.tables[right], b);
      TwoTablesEvolve(w, w', left, right, Received(w.tables[left], a), Received(w.tables[right], b));
    }
  }

  lemma TransferEvolves(w: World, source: nat, destination: nat, batch: seq<Disposition>)
    requires Wf(w) && source < |w.tables| && destination < |w.tables| && source != destination
    requires TransferError(w, source, destination, batch).None?
    ensures TablesEvolve(w, AfterTransfer(w, source, destination, batch))
  {
    var slots, goal := w.tables[source], w.tables[destination];
    BatchErrorIsExact(slots, batch);
    TakeMovesEvolves(slots, batch);
    ReceivedEvolves(goal, Prepared(slots, batch));
    TwoTablesEvolve(w, AfterTransfer(w, source, destination, batch), source, destination,
                    TakeMoves(slots, batch), Received(goal, Prepared(slots, batch)));
  }

  lemma WriteEvolves(w: World, t: nat, channel: u32, bytes: seq<u8>, batch: seq<Disposition>)
    requires Wf(w) && t < |w.tables| && WriteError(w, t, channel, bytes, batch).None?
    ensures TablesEvolve(w, AfterWrite(w, t, channel, bytes, batch))
  {
    BatchErrorIsExact(w.tables[t], batch);
    TakeMovesEvolves(w.tables[t], batch);
    OneTableEvolves(w, AfterWrite(w, t, channel, bytes, batch), t, TakeMoves(w.tables[t], batch));
  }

  lemma ReadEvolves(w: World, t: nat, channel: u32, byteRoom: nat, handleRoom: nat)
    requires Wf(w) && t < |w.tables| && ReadError(w, t, channel, byteRoom, handleRoom).None?
    ensures TablesEvolve(w, AfterRead(w, t, channel, byteRoom, handleRoom))
  {
    var e := EndpointFor(w, t, channel, READ).value;
    var handles := w.channels[e.channel].queues[e.side][0].handles;
    ReceivedEvolves(w.tables[t], handles);
    OneTableEvolves(w, AfterRead(w, t, channel, byteRoom, handleRoom), t, Received(w.tables[t], handles));
  }

  lemma SmallStepEvolves(w: World, op: Op)
    requires Wf(w) && (op.ExtendTable? || op.CreateObject? || op.CloseHandle? || op.CopyHandle?)
    ensures TablesEvolve(w, Step(w, op))
  {
    var w' := Step(w, op);
    if w' == w { SameTablesEvolve(w, w'); return; }
    match op
    case ExtendTable(t, count) =>
      ReservationIsSound(w.tables[t], count);
      OneTableEvolves(w, w', t, Grown(w.tables[t], count));
    case CreateObject(t, id, rights) =>
      ReceivedEvolves(w.tables[t], [HandleEntry(Other(id), rights)]);
      OneTableEvolves(w, w', t, w'.tables[t]);
    case CloseHandle(t, handle) =>
      assert SlotInv(w.tables[t][Lookup(w.tables[t], handle).value]);
      OneTableEvolves(w, w', t, w'.tables[t]);
    case CopyHandle(t, handle, rights) =>
      ReceivedEvolves(w.tables[t], [HandleEntry(EntryOf(w.tables[t], handle).obj, rights)]);
      OneTableEvolves(w, w', t, w'.tables[t]);
  }

  lemma StepEvolves(w: World, op: Op)
    requires Wf(w)
    ensures TablesEvolve(w, Step(w, op))
  {
    var w' := Step(w, op);
    if w' == w { SameTablesEvolve(w, w'); return; }
    match op
    case CreateChannel(left, right) => CreateChannelEvolves(w, left, right);
    case WriteChannel(t, channel, bytes, batch) => WriteEvolves(w, t, channel, bytes, batch);
    case ReadChannel(t, channel, byteRoom, handleRoom) => ReadEvolves(w, t, channel, byteRoom, handleRoom);
    case TransferHandles(source, destination, batch) => TransferEvolves(w, source, destination, batch);
    case DropTable(t) => OneTableEvolves(w, w', t, RetiredTable());
    case NewTable => SameTablesEvolve(w, w');
    case ForgetBuffer(c, side) => SameTablesEvolve(w, w');
    case DropReference(k) => SameTablesEvolve(w, w');
    case FinishDrop(c, side) => SameTablesEvolve(w, w');
    case ExtendTable(t, count) => SmallStepEvolves(w, op);
    case CreateObject(t, id, rights) => SmallStepEvolves(w, op);
    case CloseHandle(t, handle) => SmallStepEvolves(w, op);
    case CopyHandle(t, handle, rights) => SmallStepEvolves(w, op);
  }

  lemma {:induction false} RunEvolves(w: World, ops: seq<Op>, t: nat)
    requires Inv(w) && t < |w.tables|
    ensures t < |Run(w, ops).tables| && Evolves(w.tables[t], Run(w, ops).tables[t])
    decreases |ops|
  {
    if ops == [] {
      EvolvesRefl(w.tables[t]);
    } else {
      var next := Step(w, ops[0]);
      StepKeepsInv(w, ops[0]);
      StepEvolves(w, ops[0]);
      RunEvolves(next, ops[1..], t);
      RunKeepsInv(next, ops[1..]);
      EvolvesTransitive(w.tables[t], next.tables[t], Run(next, ops[1..]).tables[t]);
    }
  }

  /** A handle names one entry for one stretch of any run: while it is valid it keeps
      naming that entry, and after a close or move it is invalid forever. */
  lemma HandlesNeverRevive(w: World, ops: seq<Op>, more: seq<Op>, t: nat, handle: u32)
    requires Inv(w) && t < |w.tables| && Lookup(w.tables[t], handle).Some?
    ensures var later := Run(w, ops);
            var last := Run(later, more);
            && t < |later.tables| && t < |last.tables|
            && (Lookup(later.tables[t], handle).None? ==> Lookup(last.tables[t], handle).None?)
            && (Lookup(last.tables[t], handle).Some? ==>
                  EntryOf(last.tables[t], handle) == EntryOf(w.tables[t], handle))
  {
    var later := Run(w, ops);
    RunKeepsInv(w, ops);
    RunKeepsInv(later, more);
    RunEvolves(w, ops, t);
    RunEvolves(later, more, t);
    HandleLifeIsOneInterval(w.tables[t], later.tables[t], Run(later, more).tables[t], handle);
  }
}
