/** Every operation keeps the world invariant, hence so does every run. */
module WorldInvariant {
  import opened Objects
  import opened Handles
  import opened Refs
  import opened Totals
  import opened Transfers
  import opened Channels
  import opened ChannelGraph
  import opened World

  // ------------------------------------------------------- rights of tables

  lemma TakeMovesOk(granted: map<Object, Rights>, slots: seq<HandleSlot>, batch: seq<Disposition>)
    requires TableOk(granted, slots) && BatchOk(slots, batch)
    ensures TableOk(granted, TakeMoves(slots, batch)) && AllOk(granted, Prepared(slots, batch))
  {
    forall k | 0 <= k < |slots| { TakeFirstIsExact(slots, batch, |batch|, k); }
    forall e | e in Prepared(slots, batch) ensures EntryOk(granted, e) {
      var i :| 0 <= i < |batch| && Prepared(slots, batch)[i] == e;
      assert Permits(slots, batch[i]);
    }
  }

  lemma ReceivedOk(granted: map<Object, Rights>, slots: seq<HandleSlot>, entries: seq<HandleEntry>)
    requires TableInv(slots) && |entries| <= Available(slots)
    requires TableOk(granted, slots) && AllOk(granted, entries)
    ensures TableOk(granted, Received(slots, entries))
  {
    ReceivedEvolves(slots, entries);
    var grown := Grown(slots, |entries|);
    var indices := ReservedIndices(slots, |entries|);
    InstallFirstIsExact(grown, indices, entries, |entries|);
    assert indices[..|entries|] == indices;
    forall k | 0 <= k < |grown| && Received(slots, entries)[k].entry.Some?
      ensures EntryOk(granted, Received(slots, entries)[k].entry.value)
    {
      if k in indices {
        var i :| 0 <= i < |indices| && indices[i] == k;
        assert entries[i] in entries;
      }
    }
  }

  /** Only objects whose entry carries DUPLICATE are cloned. */
  lemma {:induction false} ClonedMayBeDuplicated(
    granted: map<Object, Rights>, slots: seq<HandleSlot>, batch: seq<Disposition>, n: nat, o: Object)
    requires TableOk(granted, slots) && BatchOk(slots, batch) && n <= |batch| && o in ClonedFirst(slots, batch, n)
    ensures o in granted && DUPLICATE in granted[o] && TableCount(slots, o) > 0
  {
    if batch[n - 1].operation.Duplicate? && EntryOf(slots, batch[n - 1].handle).obj == o {
      assert Permits(slots, batch[n - 1]);
      var i := Source(slots, batch, n - 1);
      TotalUpdate(slots, i, slots[i], SlotCount(o));
    } else {
      ClonedMayBeDuplicated(granted, slots, batch, n - 1, o);
    }
  }

  // ---------------------------------------------------------------- counts

  lemma {:induction false} TableEntriesCount(slots: seq<HandleSlot>, o: Object)
    ensures EntriesCount(TableEntries(slots), o) == TableCount(slots, o)
  {
    if slots != [] {
      TableEntriesCount(slots[1..], o);
      var first := if slots[0].entry.Some? then [slots[0].entry.value] else [];
      TotalConcat(first, TableEntries(slots[1..]), EntryCount(o));
    }
  }

  lemma {:induction false} TableEntriesOk(granted: map<Object, Rights>, slots: seq<HandleSlot>)
    requires TableOk(granted, slots)
    ensures AllOk(granted, TableEntries(slots))
  {
    if slots != [] { TableEntriesOk(granted, slots[1..]); }
  }

  // --------------------------------------------- the parts of an operation

  lemma CountTable(w: World, t: nat, slots: seq<HandleSlot>, o: Object)
    requires t < |w.tables|
    ensures References(SetTable(w, t, slots), o) + TableCount(w.tables[t], o) == References(w, o) + TableCount(slots, o)
    ensures TableCount(w.tables[t], o) <= References(w, o)
  {
    TotalUpdate(w.tables, t, slots, TableCounter(o));
  }

  lemma CountChannel(w: World, c: nat, ch: Channel, o: Object)
    requires c < |w.channels|
    ensures References(SetChannel(w, c, ch), o) + ChannelCount(w.channels[c], o) ==
      References(w, o) + ChannelCount(ch, o)
  {
    TotalUpdate(w.channels, c, ch, ChannelCounter(o));
  }

  lemma CountDropping(w: World, entries: seq<HandleEntry>, o: Object)
    ensures References(StartDropping(w, entries), o) == References(w, o) + EntriesCount(entries, o)
  {
    TotalConcat(w.dropping, entries, EntryCount(o));
  }

  lemma CountOne(e: HandleEntry, o: Object)
    ensures EntriesCount([e], o) == multiset{e.obj}[o]
  {
    TotalAppend([], e, EntryCount(o));
    assert [] + [e] == [e];
  }

  lemma SetTableIsSound(w: World, t: nat, slots: seq<HandleSlot>)
    requires Sound(w) && t < |w.tables| && TableInv(slots) && TableOk(w.granted, slots)
    ensures Sound(SetTable(w, t, slots))
  {
  }

  lemma SetChannelIsSound(w: World, c: nat, ch: Channel)
    requires Sound(w) && c < |w.channels| && ChannelInv(ch) && Acyclic(w.channels[c := ch])
    requires AllOk(w.granted, Entries(ch))
    requires forall side :: 0 <= side < 2 && Endpoint(c, side) in w.strong ==> ch.open[side]
    ensures Sound(SetChannel(w, c, ch))
  {
  }

  lemma AddStrongIsSound(w: World, more: multiset<Object>)
    requires Sound(w)
    requires forall o :: o in more ==> o in w.strong && o in w.granted && DUPLICATE in w.granted[o]
    ensures Sound(AddStrong(w, more))
  {
  }

  lemma StartDroppingIsSound(w: World, entries: seq<HandleEntry>)
    requires Sound(w) && AllOk(w.granted, entries)
    ensures Sound(StartDropping(w, entries))
  {
  }

  lemma GrantIsSound(w: World, e: HandleEntry)
    requires Sound(w) && e.obj !in w.granted
    requires e.obj.Endpoint? ==> IsEndpoint(w, e.obj) && w.channels[e.obj.channel].open[e.obj.side]
    ensures Sound(Grant(w, e))
  {
    var g := w.granted[e.obj := e.rights];
    assert forall x :: EntryOk(w.granted, x) ==> EntryOk(g, x);
    assert e.obj !in w.strong;
  }

  // ------------------------------------------------------- table-only steps

  lemma NewTableKeepsInv(w: World)
    requires Inv(w)
    ensures Inv(Step(w, NewTable))
  {
    AddTableIsSound(w);
    forall o ensures References(AddTable(w), o) == w.strong[o] {
      AddTableCounts(w, o);
      assert References(w, o) == w.strong[o];
    }
  }

  lemma AddTableIsSound(w: World)
    requires Sound(w)
    ensures Sound(AddTable(w))
  {
    forall t | 0 <= t < |AddTable(w).tables|
      ensures TableInv(AddTable(w).tables[t]) && TableOk(w.granted, AddTable(w).tables[t])
    {
    }
  }

  lemma AddTableCounts(w: World, o: Object)
    ensures References(AddTable(w), o) == References(w, o)
  {
    TotalAppend(w.tables, [], TableCounter(o));
  }

  lemma ExtendTableKeepsInv(w: World, t: nat, count: nat)
    requires Inv(w) && t < |w.tables| && count <= Available(w.tables[t])
    ensures Inv(SetTable(w, t, Grown(w.tables[t], count)))
  {
    var slots := w.tables[t];
    var grown := Grown(slots, count);
    ReservationIsSound(slots, count);
    SetTableIsSound(w, t, grown);
    forall o ensures References(SetTable(w, t, grown), o) == w.strong[o] {
      GrownKeepsRefs(slots, count, o);
      CountTable(w, t, grown, o);
    }
  }

  lemma CreateObjectKeepsInv(w: World, t: nat, e: HandleEntry)
    requires Inv(w) && t < |w.tables| && Available(w.tables[t]) >= 1 && e.obj.Other? && e.obj !in w.granted
    ensures Inv(Introduce(w, t, e))
  {
    var w1 := Grant(w, e);
    GrantIsSound(w, e);
    ArriveIsSound(w1, t, [e]);
    forall o ensures References(Introduce(w, t, e), o) == w1.strong[o] {
      ArriveCounts(w1, t, [e], o);
      CountOne(e, o);
      assert References(w1, o) == References(w, o) == w.strong[o];
    }
  }

  lemma CloseHandleKeepsInv(w: World, t: nat, handle: u32)
    requires Inv(w) && t < |w.tables| && Lookup(w.tables[t], handle).Some?
    ensures Inv(AfterClose(w, t, handle))
  {
    var slots := w.tables[t];
    var i := Lookup(slots, handle).value;
    var e := EntryOf(slots, handle);
    var w1 := SetTable(w, t, slots[i := Vacate(slots[i])]);
    assert SlotInv(slots[i]) && EntryOk(w.granted, e);
    SetTableIsSound(w, t, slots[i := Vacate(slots[i])]);
    StartDroppingIsSound(w1, [e]);
    forall o ensures References(AfterClose(w, t, handle), o) == w.strong[o] {
      TotalUpdate(slots, i, Vacate(slots[i]), SlotCount(o));
      CountTable(w, t, slots[i := Vacate(slots[i])], o);
      CountDropping(w1, [e], o);
      CountOne(e, o);
    }
  }

  lemma CopyHandleKeepsInv(w: World, t: nat, handle: u32, rights: Rights)
    requires Inv(w) && t < |w.tables| && CopyError(w, t, handle, rights).None?
    ensures Inv(AfterCopy(w, t, handle, rights))
  {
    NamedIsCounted(w, t, handle);
    AliasKeepsInv(w, t, HandleEntry(EntryOf(w.tables[t], handle).obj, rights));
  }

  /** What a valid handle names is referenced, within what it was installed with. */
  lemma NamedIsCounted(w: World, t: nat, handle: u32)
    requires Inv(w) && t < |w.tables| && Lookup(w.tables[t], handle).Some?
    ensures var e := EntryOf(w.tables[t], handle); e.obj in w.strong && EntryOk(w.granted, e)
  {
    var slots := w.tables[t];
    var i, o := Lookup(slots, handle).value, EntryOf(slots, handle).obj;
    TotalUpdate(slots, i, slots[i], SlotCount(o));
    CountTable(w, t, slots, o);
    assert References(w, o) == w.strong[o];
    assert TableOk(w.granted, slots);
  }

  /** The world with one more reference to an object, in table `t`. */
  function Aliased(w: World, t: nat, e: HandleEntry): World
    requires t < |w.tables| && TableInv(w.tables[t]) && Available(w.tables[t]) >= 1
  {
    AddStrong(SetTable(w, t, Received(w.tables[t], [e])), multiset{e.obj})
  }

  lemma AliasKeepsInv(w: World, t: nat, e: HandleEntry)
    requires Inv(w) && t < |w.tables| && Available(w.tables[t]) >= 1
    requires e.obj in w.strong && EntryOk(w.granted, e) && DUPLICATE in w.granted[e.obj]
    ensures Inv(Aliased(w, t, e))
  {
    ArriveIsSound(w, t, [e]);
    AddStrongIsSound(SetTable(w, t, Received(w.tables[t], [e])), multiset{e.obj});
    forall o ensures References(Aliased(w, t, e), o) == w.strong[o] + multiset{e.obj}[o] {
      AliasCounts(w, t, e, o);
      assert References(w, o) == w.strong[o];
    }
  }

  lemma AliasCounts(w: World, t: nat, e: HandleEntry, o: Object)
    requires t < |w.tables| && TableInv(w.tables[t]) && Available(w.tables[t]) >= 1
    ensures References(Aliased(w, t, e), o) == References(w, o) + multiset{e.obj}[o]
  {
    ArriveCounts(w, t, [e], o);
    CountOne(e, o);
  }

  lemma DropTableKeepsInv(w: World, t: nat)
    requires Inv(w) && t < |w.tables|
    ensures Inv(Step(w, DropTable(t)))
  {
    var slots := w.tables[t];
    var w1 := SetTable(w, t, RetiredTable());
    TableEntriesOk(w.granted, slots);
    SetTableIsSound(w, t, RetiredTable());
    StartDroppingIsSound(w1, TableEntries(slots));
    forall o ensures References(StartDropping(w1, TableEntries(slots)), o) == w.strong[o] {
      TotalZero(RetiredTable(), SlotCount(o));
      CountTable(w, t, RetiredTable(), o);
      TableEntriesCount(slots, o);
      CountDropping(w1, TableEntries(slots), o);
    }
  }

  /** Cloning from table `t` raises no count that must stay at one or at zero. */
  lemma ClonesAreLicensed(w: World, t: nat, batch: seq<Disposition>)
    requires Inv(w) && t < |w.tables| && BatchOk(w.tables[t], batch)
    ensures forall o :: o in Cloned(w.tables[t], batch) ==> o in w.strong && o in w.granted && DUPLICATE in w.granted[o]
  {
    forall o | o in Cloned(w.tables[t], batch)
      ensures o in w.strong && o in w.granted && DUPLICATE in w.granted[o]
    {
      ClonedMayBeDuplicated(w.granted, w.tables[t], batch, |batch|, o);
      CountTable(w, t, w.tables[t], o);
      assert References(w, o) == w.strong[o];
    }
  }

  lemma LeaveIsSound(w: World, t: nat, batch: seq<Disposition>)
    requires Sound(w) && t < |w.tables| && BatchError(w.tables[t], batch).None?
    ensures BatchOk(w.tables[t], batch) && AllOk(w.granted, Prepared(w.tables[t], batch))
    ensures Sound(SetTable(w, t, TakeMoves(w.tables[t], batch)))
  {
    BatchErrorIsExact(w.tables[t], batch);
    TakeMovesOk(w.granted, w.tables[t], batch);
    TakeMovesEvolves(w.tables[t], batch);
    SetTableIsSound(w, t, TakeMoves(w.tables[t], batch));
  }

  lemma ArriveIsSound(w: World, t: nat, entries: seq<HandleEntry>)
    requires Sound(w) && t < |w.tables| && |entries| <= Available(w.tables[t]) && AllOk(w.granted, entries)
    ensures Sound(SetTable(w, t, Received(w.tables[t], entries)))
  {
    ReceivedEvolves(w.tables[t], entries);
    ReceivedOk(w.granted, w.tables[t], entries);
    SetTableIsSound(w, t, Received(w.tables[t], entries));
  }

  lemma ArriveCounts(w: World, t: nat, entries: seq<HandleEntry>, o: Object)
    requires t < |w.tables| && TableInv(w.tables[t]) && |entries| <= Available(w.tables[t])
    ensures References(SetTable(w, t, Received(w.tables[t], entries)), o) == References(w, o) + EntriesCount(entries, o)
  {
    ReceivedAddsRefs(w.tables[t], entries, o);
    CountTable(w, t, Received(w.tables[t], entries), o);
  }

  lemma TransferCounts(w: World, source: nat, destination: nat, batch: seq<Disposition>, o: Object)
    requires Wf(w) && source < |w.tables| && destination < |w.tables| && source != destination
    requires TransferError(w, source, destination, batch).None?
    ensures References(AfterTransfer(w, source, destination, batch), o)
         == References(w, o) + Cloned(w.tables[source], batch)[o]
  {
    var slots, goal := w.tables[source], w.tables[destination];
    BatchErrorIsExact(slots, batch);
    BatchConservesRefs(slots, batch, o);
    CountTable(w, source, TakeMoves(slots, batch), o);
    ArriveCounts(SetTable(w, source, TakeMoves(slots, batch)), destination, Prepared(slots, batch), o);
  }

  lemma TransferIsSound(w: World, source: nat, destination: nat, batch: seq<Disposition>)
    requires Inv(w) && source < |w.tables| && destination < |w.tables| && source != destination
    requires TransferError(w, source, destination, batch).None?
    ensures Sound(AfterTransfer(w, source, destination, batch))
  {
    var entries, clones := Prepared(w.tables[source], batch), Cloned(w.tables[source], batch);
    LeaveIsSound(w, source, batch);
    ClonesAreLicensed(w, source, batch);
    var w1 := SetTable(w, source, TakeMoves(w.tables[source], batch));
    ArriveIsSound(w1, destination, entries);
    AddStrongIsSound(SetTable(w1, destination, Received(w.tables[destination], entries)), clones);
  }

  lemma TransferKeepsInv(w: World, source: nat, destination: nat, batch: seq<Disposition>)
    requires Inv(w) && source < |w.tables| && destination < |w.tables| && source != destination
    requires TransferError(w, source, destination, batch).None?
    ensures Inv(AfterTransfer(w, source, destination, batch))
  {
    TransferIsSound(w, source, destination, batch);
    var w' := AfterTransfer(w, source, destination, batch);
    forall o ensures References(w', o) == w'.strong[o] {
      TransferCounts(w, source, destination, batch, o);
      assert References(w, o) == w.strong[o];
    }
  }

  // ---------------------------------------------------------- channel steps

  lemma AddChannelIsSound(w: World)
    requires Sound(w)
    ensures Sound(AddChannel(w))
  {
    var chs := w.channels + [NEW_CHANNEL];
    assert Entries(NEW_CHANNEL) == [];
    assert Subgraph(chs, w.channels);
    SubgraphAcyclic(chs, w.channels);
  }

  /** The world with the new channel and its two grants, before their handles exist. */
  function Made(w: World): World
  {
    Grant(Grant(AddChannel(w), NewEndpoint(w, 0)), NewEndpoint(w, 1))
  }

  lemma MadeIsSound(w: World)
    requires Sound(w)
    ensures Sound(Made(w))
  {
    AddChannelIsSound(w);
    GrantIsSound(AddChannel(w), NewEndpoint(w, 0));
    GrantIsSound(Grant(AddChannel(w), NewEndpoint(w, 0)), NewEndpoint(w, 1));
  }

  lemma MadeCounts(w: World, o: Object)
    requires References(w, o) == w.strong[o]
    ensures References(Made(w), o) + multiset{NewEndpoint(w, 0).obj}[o] + multiset{NewEndpoint(w, 1).obj}[o] ==
      Made(w).strong[o]
  {
    TotalAppend(w.channels, NEW_CHANNEL, ChannelCounter(o));
    assert Entries(NEW_CHANNEL) == [];
  }

  lemma CreateChannelKeepsInv(w: World, left: nat, right: nat)
    requires Inv(w) && left < |w.tables| && right < |w.tables| && RoomForChannel(w, left, right)
    ensures Inv(AfterCreateChannel(w, left, right))
  {
    var a, b := NewEndpoint(w, 0), NewEndpoint(w, 1);
    MadeIsSound(w);
    forall o
      ensures References(Made(w), o) + multiset{a.obj}[o] + multiset{b.obj}[o] == Made(w).strong[o]
    {
      MadeCounts(w, o);
    }
    PlacedPairKeepsInv(Made(w), left, right, a, b);
  }

  /** Two references counted ahead of their handles become handles. */
  lemma PlacedPairKeepsInv(w: World, left: nat, right: nat, a: HandleEntry, b: HandleEntry)
    requires Sound(w) && left < |w.tables| && right < |w.tables| && RoomForChannel(w, left, right)
    requires EntryOk(w.granted, a) && EntryOk(w.granted, b)
    requires forall o :: References(w, o) + multiset{a.obj}[o] + multiset{b.obj}[o] == w.strong[o]
    ensures Inv(PlacePair(w, left, right, a, b))
  {
    InstallPair(w, left, right, a, b);
  }

  lemma InstallPair(w: World, left: nat, right: nat, a: HandleEntry, b: HandleEntry)
    requires Sound(w) && left < |w.tables| && right < |w.tables| && RoomForChannel(w, left, right)
    requires EntryOk(w.granted, a) && EntryOk(w.granted, b)
    ensures Sound(PlacePair(w, left, right, a, b))
    ensures forall o :: References(PlacePair(w, left, right, a, b), o) ==
              References(w, o) + multiset{a.obj}[o] + multiset{b.obj}[o]
  {
    if left == right {
      InstallBoth(w, left, a, b);
    } else {
      InstallCounts(w, left, a);
      InstallCounts(SetTable(w, left, Received(w.tables[left], [a])), right, b);
    }
  }

  lemma InstallCounts(w: World, t: nat, e: HandleEntry)
    requires Sound(w) && t < |w.tables| && Available(w.tables[t]) >= 1 && EntryOk(w.granted, e)
    ensures var w' := SetTable(w, t, Received(w.tables[t], [e]));
            Sound(w') && forall o :: References(w', o) == References(w, o) + multiset{e.obj}[o]
  {
    ArriveIsSound(w, t, [e]);
    forall o
      ensures References(SetTable(w, t, Received(w.tables[t], [e])), o) == References(w, o) + multiset{e.obj}[o]
    {
      ArriveCounts(w, t, [e], o);
      CountOne(e, o);
    }
  }

  lemma InstallBoth(w: World, t: nat, a: HandleEntry, b: HandleEntry)
    requires Sound(w) && t < |w.tables| && Available(w.tables[t]) >= 2 && EntryOk(w.granted, a) && EntryOk(w.granted, b)
    ensures var w' := SetTable(w, t, Received(w.tables[t], [a, b]));
            Sound(w') && forall o :: References(w', o) == References(w, o) + multiset{a.obj}[o] + multiset{b.obj}[o]
  {
    var got := Received(w.tables[t], [a, b]);
    ArriveIsSound(w, t, [a, b]);
    forall o ensures References(SetTable(w, t, got), o) == References(w, o) + multiset{a.obj}[o] + multiset{b.obj}[o] {
      ArriveCounts(w, t, [a, b], o);
      assert [a] + [b] == [a, b];
      TotalAppend([a], b, EntryCount(o));
      CountOne(a, o);
    }
  }

  lemma WriteGraph(chs: seq<Channel>, c: nat, side: nat, m: Message)
    requires Acyclic(chs) && c < |chs| && Shape(chs[c]) && side < 2
    requires !ClosesCycle(chs, m.handles, c)
    ensures Acyclic(chs[c := Push(chs[c], side, m)])
  {
    var after := chs[c := Push(chs[c], side, m)];
    EntriesAfter(chs[c], side, m);
    forall d | Carries(after, c, d) ensures Carries(chs, c, d) || !Reaches(chs, d, c) {
      var k :| 0 <= k < |Entries(after[c])| && Leads(Entries(after[c])[k], d);
      var e := Entries(after[c])[k];
      assert e in Entries(after[c]);
      if e in Entries(chs[c]) {
        var i :| 0 <= i < |Entries(chs[c])| && Entries(chs[c])[i] == e;
        assert Leads(Entries(chs[c])[i], d);
      }
    }
    assert AddsEdgesFrom(chs, after, c);
    AcceptedWriteKeepsAcyclic(chs, after, c);
  }

  lemma WriteCounts(w: World, t: nat, channel: u32, bytes: seq<u8>, batch: seq<Disposition>, o: Object)
    requires Wf(w) && t < |w.tables| && WriteError(w, t, channel, bytes, batch).None?
    ensures References(AfterWrite(w, t, channel, bytes, batch), o) == References(w, o) + Cloned(w.tables[t], batch)[o]
  {
    var slots := w.tables[t];
    var e := EndpointFor(w, t, channel, WRITE).value;
    var ch, peer := w.channels[e.channel], 1 - e.side;
    BatchErrorIsExact(slots, batch);
    var m := Message(bytes, Prepared(slots, batch));
    var left := TakeMoves(slots, batch);
    BatchConservesRefs(slots, batch, o);
    PushCount(ch, peer, m, o);
    CountTable(w, t, left, o);
    CountChannel(SetTable(w, t, left), e.channel, Push(ch, peer, m), o);
  }

  lemma WriteIsSound(w: World, c: nat, side: nat, m: Message)
    requires Sound(w) && c < |w.channels| && side < 2 && AllOk(w.granted, m.handles)
    requires w.channels[c].open[side] && |w.channels[c].queues[side]| < CHANNEL_QUEUE_CAPACITY
    requires !ClosesCycle(w.channels, m.handles, c)
    ensures Sound(SetChannel(w, c, Push(w.channels[c], side, m)))
  {
    PushKeepsInv(w.channels[c], side, m);
    EntriesAfter(w.channels[c], side, m);
    WriteGraph(w.channels, c, side, m);
    SetChannelIsSound(w, c, Push(w.channels[c], side, m));
  }

  lemma CommitIsSound(w: World, t: nat, batch: seq<Disposition>, c: nat, side: nat, m: Message)
    requires Inv(w) && t < |w.tables| && BatchError(w.tables[t], batch).None?
    requires m.handles == Prepared(w.tables[t], batch)
    requires c < |w.channels| && side < 2 && w.channels[c].open[side]
    requires |w.channels[c].queues[side]| < CHANNEL_QUEUE_CAPACITY && !ClosesCycle(w.channels, m.handles, c)
    ensures var left := SetTable(w, t, TakeMoves(w.tables[t], batch));
            Sound(AddStrong(SetChannel(left, c, Push(w.channels[c], side, m)), Cloned(w.tables[t], batch)))
  {
    var w1 := SetTable(w, t, TakeMoves(w.tables[t], batch));
    LeaveIsSound(w, t, batch);
    ClonesAreLicensed(w, t, batch);
    WriteIsSound(w1, c, side, m);
    AddStrongIsSound(SetChannel(w1, c, Push(w.channels[c], side, m)), Cloned(w.tables[t], batch));
  }

  /** What an accepted write has established. */
  lemma WriteAccepted(w: World, t: nat, channel: u32, bytes: seq<u8>, batch: seq<Disposition>) returns (e: Object)
    requires Wf(w) && t < |w.tables| && WriteError(w, t, channel, bytes, batch).None?
    ensures EndpointFor(w, t, channel, WRITE) == Ok(e) && IsEndpoint(w, e) && BatchError(w.tables[t], batch).None?
    ensures w.channels[e.channel].open[1 - e.side]
    ensures |w.channels[e.channel].queues[1 - e.side]| < CHANNEL_QUEUE_CAPACITY
    ensures !ClosesCycle(w.channels, Prepared(w.tables[t], batch), e.channel)
    ensures AfterWrite(w, t, channel, bytes, batch) == AddStrong(
              SetChannel(SetTable(w, t, TakeMoves(w.tables[t], batch)), e.channel,
                Push(w.channels[e.channel], 1 - e.side, Message(bytes, Prepared(w.tables[t], batch)))),
              Cloned(w.tables[t], batch))
  {
    e := EndpointFor(w, t, channel, WRITE).value;
  }

  lemma WriteKeepsInv(w: World, t: nat, channel: u32, bytes: seq<u8>, batch: seq<Disposition>)
    requires Inv(w) && t < |w.tables| && WriteError(w, t, channel, bytes, batch).None?
    ensures Inv(AfterWrite(w, t, channel, bytes, batch))
  {
    AfterWriteIsSound(w, t, channel, bytes, batch);
    var w' := AfterWrite(w, t, channel, bytes, batch);
    forall o ensures References(w', o) == w'.strong[o] {
      assert References(w, o) == w.strong[o];
      WriteCounts(w, t, channel, bytes, batch, o);
    }
  }

  lemma AfterWriteIsSound(w: World, t: nat, channel: u32, bytes: seq<u8>, batch: seq<Disposition>)
    requires Inv(w) && t < |w.tables| && WriteError(w, t, channel, bytes, batch).None?
    ensures Sound(AfterWrite(w, t, channel, bytes, batch))
  {
    var e := WriteAccepted(w, t, channel, bytes, batch);
    CommitIsSound(w, t, batch, e.channel, 1 - e.side, Message(bytes, Prepared(w.tables[t], batch)));
  }

  /** Replacing a channel by one that carries no more only removes edges. */
  lemma FewerEntriesSubgraph(chs: seq<Channel>, c: nat, ch: Channel)
    requires c < |chs| && forall e :: e in Entries(ch) ==> e in Entries(chs[c])
    ensures Subgraph(chs[c := ch], chs)
  {
    forall a: nat, d: nat | Carries(chs[c := ch], a, d) ensures Carries(chs, a, d) {
      if a == c {
        var k :| 0 <= k < |Entries(ch)| && Leads(Entries(ch)[k], d);
        assert Entries(ch)[k] in Entries(chs[c]);
        var i :| 0 <= i < |Entries(chs[c])| && Entries(chs[c])[i] == Entries(ch)[k];
        assert Leads(Entries(chs[c])[i], d);
      }
    }
  }

  lemma FewerEntriesAcyclic(chs: seq<Channel>, c: nat, ch: Channel)
    requires Acyclic(chs) && c < |chs| && forall e :: e in Entries(ch) ==> e in Entries(chs[c])
    ensures Acyclic(chs[c := ch])
  {
    FewerEntriesSubgraph(chs, c, ch);
    SubgraphAcyclic(chs[c := ch], chs);
  }

  lemma ReadCounts(w: World, t: nat, channel: u32, byteRoom: nat, handleRoom: nat, o: Object)
    requires Wf(w) && t < |w.tables| && ReadError(w, t, channel, byteRoom, handleRoom).None?
    ensures References(AfterRead(w, t, channel, byteRoom, handleRoom), o) == References(w, o)
  {
    var slots := w.tables[t];
    var e := EndpointFor(w, t, channel, READ).value;
    var ch := w.channels[e.channel];
    var m := ch.queues[e.side][0];
    PopCount(ch, e.side, o);
    ArriveCounts(w, t, m.handles, o);
    CountChannel(SetTable(w, t, Received(slots, m.handles)), e.channel, Pop(ch, e.side), o);
  }

  lemma ReadKeepsInv(w: World, t: nat, channel: u32, byteRoom: nat, handleRoom: nat)
    requires Inv(w) && t < |w.tables| && ReadError(w, t, channel, byteRoom, handleRoom).None?
    ensures Inv(AfterRead(w, t, channel, byteRoom, handleRoom))
  {
    var slots := w.tables[t];
    var e := EndpointFor(w, t, channel, READ).value;
    var ch := w.channels[e.channel];
    var m := ch.queues[e.side][0];
    EntriesAfter(ch, e.side, m);
    ArriveIsSound(w, t, m.handles);
    PopKeepsInv(ch, e.side);
    FewerEntriesAcyclic(w.channels, e.channel, Pop(ch, e.side));
    SetChannelIsSound(SetTable(w, t, Received(slots, m.handles)), e.channel, Pop(ch, e.side));
    forall o { ReadCounts(w, t, channel, byteRoom, handleRoom, o); }
  }

  lemma ForgetBufferKeepsInv(w: World, c: nat, side: nat)
    requires Inv(w) && c < |w.channels| && side < 2
    ensures Inv(SetChannel(w, c, LoseBuffer(w.channels[c], side)))
  {
    var ch := LoseBuffer(w.channels[c], side);
    assert Entries(ch) == Entries(w.channels[c]);
    FewerEntriesAcyclic(w.channels, c, ch);
    SetChannelIsSound(w, c, ch);
    forall o ensures References(SetChannel(w, c, ch), o) == w.strong[o] {
      CountChannel(w, c, ch, o);
    }
  }

  // ------------------------------------------------------------- drop steps

  lemma DropReferenceIsSound(w: World, k: nat)
    requires Sound(w) && k < |w.dropping|
    ensures Sound(AfterDropReference(w, k))
  {
    var w' := AfterDropReference(w, k);
    assert forall e :: e in w'.dropping ==> e in w.dropping;
    assert forall o :: o in w'.strong ==> o in w.strong;
  }

  lemma DropReferenceCounts(w: World, k: nat, o: Object)
    requires k < |w.dropping| && References(w, o) == w.strong[o]
    ensures References(AfterDropReference(w, k), o) == AfterDropReference(w, k).strong[o]
  {
    TotalRemove(w.dropping, k, EntryCount(o));
  }

  lemma DropReferenceKeepsInv(w: World, k: nat)
    requires Inv(w) && k < |w.dropping|
    ensures Inv(AfterDropReference(w, k))
  {
    DropReferenceIsSound(w, k);
    forall o ensures References(AfterDropReference(w, k), o) == AfterDropReference(w, k).strong[o] {
      DropReferenceCounts(w, k, o);
    }
  }

  lemma FinishDropIsSound(w: World, c: nat, side: nat)
    requires Sound(w) && Dying(w, c, side)
    ensures Sound(AfterFinishDrop(w, c, side))
  {
    var ch := w.channels[c];
    var ch' := CloseSide(ch, side);
    CloseKeepsInv(ch, side);
    EntriesAfter(ch, side, Message([], []));
    FewerEntriesAcyclic(w.channels, c, ch');
    SetChannelIsSound(w, c, ch');
    StartDroppingIsSound(SetChannel(w, c, ch'), Contents(ch.queues[side]));
  }

  lemma FinishDropCounts(w: World, c: nat, side: nat, o: Object)
    requires Wf(w) && Dying(w, c, side)
    ensures References(AfterFinishDrop(w, c, side), o) == References(w, o)
  {
    var ch := w.channels[c];
    CloseCount(ch, side, o);
    CountChannel(w, c, CloseSide(ch, side), o);
    CountDropping(SetChannel(w, c, CloseSide(ch, side)), Contents(ch.queues[side]), o);
  }

  lemma FinishDropKeepsInv(w: World, c: nat, side: nat)
    requires Inv(w) && Dying(w, c, side)
    ensures Inv(AfterFinishDrop(w, c, side))
  {
    FinishDropIsSound(w, c, side);
    forall o ensures References(AfterFinishDrop(w, c, side), o) == w.strong[o] { FinishDropCounts(w, c, side, o); }
  }

  /** Whatever operation comes next, the invariant survives it. */
  lemma StepKeepsInv(w: World, op: Op)
    requires Inv(w)
    ensures Inv(Step(w, op))
  {
    if Step(w, op) != w {
      match op
      case NewTable => NewTableKeepsInv(w);
      case ExtendTable(t, count) => ExtendTableKeepsInv(w, t, count);
      case CreateObject(t, id, rights) => CreateObjectKeepsInv(w, t, HandleEntry(Other(id), rights));
      case CreateChannel(left, right) => CreateChannelKeepsInv(w, left, right);
      case WriteChannel(t, channel, bytes, batch) => WriteKeepsInv(w, t, channel, bytes, batch);
      case ForgetBuffer(c, side) => ForgetBufferKeepsInv(w, c, side);
      case ReadChannel(t, channel, byteRoom, handleRoom) => ReadKeepsInv(w, t, channel, byteRoom, handleRoom);
      case CloseHandle(t, handle) => CloseHandleKeepsInv(w, t, handle);
      case CopyHandle(t, handle, rights) => CopyHandleKeepsInv(w, t, handle, rights);
      case TransferHandles(source, destination, batch) => TransferKeepsInv(w, source, destination, batch);
      case DropTable(t) => DropTableKeepsInv(w, t);
      case DropReference(k) => DropReferenceKeepsInv(w, k);
      case FinishDrop(c, side) => FinishDropKeepsInv(w, c, side);
    }
  }

  /** The world after a sequence of operations. */
  ghost function Run(w: World, ops: seq<Op>): World
    decreases |ops|
  {
    if ops == [] || !Wf(w) then w else Run(Step(w, ops[0]), ops[1..])
  }

  /** Every world any run reaches satisfies the invariant. */
  lemma {:induction false} RunKeepsInv(w: World, ops: seq<Op>)
    requires Inv(w)
    ensures Inv(Run(w, ops))
    decreases |ops|
  {
    if ops != [] {
      StepKeepsInv(w, ops[0]);
      RunKeepsInv(Step(w, ops[0]), ops[1..]);
    }
  }
}
