/** What a handle permits and what comes of using it, said of the handles and queues
    themselves: which entry a handle names, which rights that entry carries, and what the
    tables name and the queues hold afterwards. */
module Authority {
  import opened Objects
  import opened Handles
  import opened Transfers
  import opened Channels
  import opened ChannelGraph
  import opened World
  import opened WorldInvariant
  import opened Interleaving

  // ------------------------------------------------------------------- rights

  /** The handle names this endpoint, with this right. */
  ghost predicate May(w: World, t: nat, handle: u32, right: Right, e: Object)
  {
    && t < |w.tables| && Lookup(w.tables[t], handle).Some? && IsEndpoint(w, e)
    && EntryOf(w.tables[t], handle).obj == e && right in EntryOf(w.tables[t], handle).rights
  }

  /** A disposition that may be carried out: a live handle, TRANSFER to move it or DUPLICATE
      to duplicate it, and no rights beyond its own. */
  ghost predicate MayDispose(slots: seq<HandleSlot>, d: Disposition)
  {
    match Naming(slots, d.handle)
    case None => false
    case Some(entry) =>
      (if d.operation == Move then TRANSFER in entry.rights else DUPLICATE in entry.rights) && d.rights <= entry.rights
  }

  ghost predicate Repeats(batch: seq<Disposition>, i: nat)
    requires i < |batch|
  {
    exists j :: 0 <= j < i && batch[j].handle == batch[i].handle
  }

  ghost predicate MayDisposeAll(slots: seq<HandleSlot>, batch: seq<Disposition>)
  {
    forall i: nat :: i < |batch| ==> MayDispose(slots, batch[i]) && !Repeats(batch, i)
  }

  /** The first disposition that may not be carried out, and why. */
  ghost predicate FirstRefused(slots: seq<HandleSlot>, batch: seq<Disposition>, i: nat, error: IpcError)
  {
    && i < |batch| && (forall k: nat :: k < i ==> MayDispose(slots, batch[k]) && !Repeats(batch, k))
    && (if Repeats(batch, i) then error == DuplicateHandle
        else match Naming(slots, batch[i].handle)
             case None => error == InvalidHandle
             case Some(entry) =>
               if (if batch[i].operation == Move then TRANSFER else DUPLICATE) !in entry.rights
               then error == AccessDenied else !(batch[i].rights <= entry.rights) && error == InvalidRights)
  }

  lemma {:induction false} BatchErrorFromIsFirst(slots: seq<HandleSlot>, batch: seq<Disposition>, i: nat)
    requires i <= |batch| && forall k: nat :: k < i ==> MayDispose(slots, batch[k]) && !Repeats(batch, k)
    ensures BatchErrorFrom(slots, batch, i).None? ==> MayDisposeAll(slots, batch)
    ensures BatchErrorFrom(slots, batch, i).Some? ==>
      exists k: nat :: FirstRefused(slots, batch, k, BatchErrorFrom(slots, batch, i).value)
    decreases |batch| - i
  {
    if i < |batch| {
      if MayDispose(slots, batch[i]) && !Repeats(batch, i) {
        assert BatchErrorFrom(slots, batch, i) == BatchErrorFrom(slots, batch, i + 1);
        BatchErrorFromIsFirst(slots, batch, i + 1);
      } else {
        assert FirstRefused(slots, batch, i, BatchErrorFrom(slots, batch, i).value);
      }
    }
  }

  /** A batch is refused for its first disposition that may not be carried out, and only so. */
  lemma BatchErrorIsFirst(slots: seq<HandleSlot>, batch: seq<Disposition>)
    ensures BatchError(slots, batch).None? <==> MayDisposeAll(slots, batch)
    ensures BatchError(slots, batch).Some? ==>
      exists i: nat :: FirstRefused(slots, batch, i, BatchError(slots, batch).value)
  {
    BatchErrorFromIsFirst(slots, batch, 0);
    if BatchError(slots, batch).Some? {
      var i: nat :| FirstRefused(slots, batch, i, BatchError(slots, batch).value);
      assert !MayDispose(slots, batch[i]) || Repeats(batch, i);
    }
  }

  /** What a batch asks for: each object its handles name, with the rights it names. */
  ghost predicate Asked(slots: seq<HandleSlot>, batch: seq<Disposition>, entries: seq<HandleEntry>)
  {
    && |entries| == |batch|
    && forall i :: 0 <= i < |batch| ==>
         && Lookup(slots, batch[i].handle).Some?
         && entries[i] == HandleEntry(EntryOf(slots, batch[i].handle).obj, batch[i].rights)
  }

  lemma PreparedIsAsked(slots: seq<HandleSlot>, batch: seq<Disposition>)
    requires AllLive(slots, batch)
    ensures forall entries :: Asked(slots, batch, entries) <==> entries == Prepared(slots, batch)
  {
  }

  /** No handle of the batch leads to the channel. */
  ghost predicate LeadsNowhere(w: World, t: nat, batch: seq<Disposition>, c: nat)
    requires t < |w.tables|
  {
    forall i :: 0 <= i < |batch| && Lookup(w.tables[t], batch[i].handle).Some? ==>
      var o := EntryOf(w.tables[t], batch[i].handle).obj;
      o.Endpoint? ==> !Reaches(w.channels, o.channel, c)
  }

  ghost predicate MayWrite(w: World, t: nat, channel: u32, bytes: seq<u8>, batch: seq<Disposition>, e: Object)
    requires Wf(w)
  {
    && May(w, t, channel, WRITE, e) && |bytes| <= CHANNEL_MAX_BYTES && |batch| <= CHANNEL_MAX_HANDLES
    && MayDisposeAll(w.tables[t], batch)
    && w.channels[e.channel].open[1 - e.side]
    && |w.channels[e.channel].queues[1 - e.side]| < CHANNEL_QUEUE_CAPACITY
    && LeadsNowhere(w, t, batch, e.channel)
  }

  ghost predicate MayRead(w: World, t: nat, channel: u32, byteRoom: nat, handleRoom: nat, e: Object)
    requires Wf(w)
  {
    && May(w, t, channel, READ, e) && w.channels[e.channel].queues[e.side] != []
    && var m := w.channels[e.channel].queues[e.side][0];
       |m.bytes| <= byteRoom && |m.handles| <= handleRoom && |m.handles| <= Available(w.tables[t])
  }

  lemma CycleIsLeading(w: World, t: nat, batch: seq<Disposition>, c: nat)
    requires t < |w.tables| && AllLive(w.tables[t], batch)
    ensures ClosesCycle(w.channels, Prepared(w.tables[t], batch), c) <==> !LeadsNowhere(w, t, batch, c)
  {
    var prepared := Prepared(w.tables[t], batch);
    if ClosesCycle(w.channels, prepared, c) {
      var i :| 0 <= i < |prepared| && prepared[i].obj.Endpoint? && Reaches(w.channels, prepared[i].obj.channel, c);
      assert Lookup(w.tables[t], batch[i].handle).Some?;
    }
    if !LeadsNowhere(w, t, batch, c) {
      var i :| 0 <= i < |batch| && Lookup(w.tables[t], batch[i].handle).Some? &&
        var o := EntryOf(w.tables[t], batch[i].handle).obj; o.Endpoint? && Reaches(w.channels, o.channel, c);
      assert prepared[i].obj.Endpoint? && Reaches(w.channels, prepared[i].obj.channel, c);
    }
  }

  /** A write is accepted exactly when its handle names an endpoint with WRITE, sizes and
      batch are in order, and the peer is open, has room and is led to by no handle. */
  lemma WriteIsAllowedExactly(w: World, t: nat, channel: u32, bytes: seq<u8>, batch: seq<Disposition>)
    requires Wf(w) && t < |w.tables|
    ensures WriteError(w, t, channel, bytes, batch).None? <==> exists e :: MayWrite(w, t, channel, bytes, batch, e)
  {
    var slots := w.tables[t];
    BatchErrorIsFirst(slots, batch);
    BatchErrorIsExact(slots, batch);
    if EndpointFor(w, t, channel, WRITE).Ok? && BatchOk(slots, batch) {
      CycleIsLeading(w, t, batch, EndpointFor(w, t, channel, WRITE).value.channel);
    }
    if WriteError(w, t, channel, bytes, batch).None? {
      assert MayWrite(w, t, channel, bytes, batch, EndpointFor(w, t, channel, WRITE).value);
    }
  }

  /** A read is accepted exactly when its handle names an endpoint with READ, something is
      queued, and bytes and handles both fit. */
  lemma ReadIsAllowedExactly(w: World, t: nat, channel: u32, byteRoom: nat, handleRoom: nat)
    requires Wf(w) && t < |w.tables|
    ensures ReadError(w, t, channel, byteRoom, handleRoom).None? <==>
      exists e :: MayRead(w, t, channel, byteRoom, handleRoom, e)
  {
    if ReadError(w, t, channel, byteRoom, handleRoom).None? {
      assert MayRead(w, t, channel, byteRoom, handleRoom, EndpointFor(w, t, channel, READ).value);
    }
  }

  /** Why a handle cannot be used for a right, whatever it is to be used for. */
  ghost predicate Unusable(w: World, t: nat, handle: u32, right: Right, error: IpcError)
    requires t < |w.tables|
  {
    match Naming(w.tables[t], handle)
    case None => error == InvalidHandle
    case Some(entry) =>
      if right !in entry.rights then error == AccessDenied else !IsEndpoint(w, entry.obj) && error == WrongObjectType
  }

  /** A handle without the right is refused before anything else is looked at. */
  lemma UnusableIsRefused(
    w: World, t: nat, handle: u32, bytes: seq<u8>, batch: seq<Disposition>, byteRoom: nat, handleRoom: nat,
    error: IpcError)
    requires Wf(w) && t < |w.tables|
    ensures Unusable(w, t, handle, WRITE, error) && |bytes| <= CHANNEL_MAX_BYTES && |batch| <= CHANNEL_MAX_HANDLES ==>
      WriteError(w, t, handle, bytes, batch) == Some(error) && Step(w, WriteChannel(t, handle, bytes, batch)) == w
    ensures Unusable(w, t, handle, READ, error) ==>
      && ReadError(w, t, handle, byteRoom, handleRoom) == Some(error)
      && Step(w, ReadChannel(t, handle, byteRoom, handleRoom)) == w
  {
  }

  /** What a reader with the right is told otherwise. */
  lemma ReadRefusals(w: World, t: nat, channel: u32, byteRoom: nat, handleRoom: nat, e: Object)
    requires Wf(w) && May(w, t, channel, READ, e)
    ensures
      var ch, error := w.channels[e.channel], ReadError(w, t, channel, byteRoom, handleRoom);
      && (error == Some(ShouldWait) <==> ch.queues[e.side] == [] && ch.open[1 - e.side])
      && (error == Some(PeerClosed) <==> ch.queues[e.side] == [] && !ch.open[1 - e.side])
      && (ch.queues[e.side] != [] ==>
            var m := ch.queues[e.side][0];
            && (error == Some(BufferTooSmall(|m.bytes|, |m.handles|)) <==>
                  byteRoom < |m.bytes| || handleRoom < |m.handles|)
            && (error == Some(HandleTableFull) <==>
                  |m.bytes| <= byteRoom && Available(w.tables[t]) < |m.handles| <= handleRoom))
  {
  }

  /** What a writer with the right is told otherwise. */
  lemma WriteRefusals(w: World, t: nat, channel: u32, bytes: seq<u8>, batch: seq<Disposition>, e: Object)
    requires Wf(w) && May(w, t, channel, WRITE, e) && MayDisposeAll(w.tables[t], batch)
    requires |bytes| <= CHANNEL_MAX_BYTES && |batch| <= CHANNEL_MAX_HANDLES
    ensures
      var ch, error := w.channels[e.channel], WriteError(w, t, channel, bytes, batch);
      && (error == Some(PeerClosed) <==> !ch.open[1 - e.side])
      && (error == Some(ShouldWait) <==>
            ch.open[1 - e.side] && |ch.queues[1 - e.side]| == CHANNEL_QUEUE_CAPACITY)
      && (error == Some(CyclicTransfer) <==>
            && ch.open[1 - e.side] && |ch.queues[1 - e.side]| < CHANNEL_QUEUE_CAPACITY
            && !LeadsNowhere(w, t, batch, e.channel))
  {
    BatchErrorIsFirst(w.tables[t], batch);
    BatchErrorIsExact(w.tables[t], batch);
    CycleIsLeading(w, t, batch, e.channel);
  }

  /** The signals of an endpoint say exactly what its holder can do: READABLE that a read
      finds a message, WRITABLE that a plain write succeeds, PEER_CLOSED that none ever will. */
  lemma SignalsAreTrue(w: World, t: nat, channel: u32, e: Object, bytes: seq<u8>, byteRoom: nat, handleRoom: nat)
    requires Wf(w) && t < |w.tables| && May(w, t, channel, READ, e) && May(w, t, channel, WRITE, e)
    requires |bytes| <= CHANNEL_MAX_BYTES
    ensures
      var signals := ChannelSignals(w.channels[e.channel], e.side);
      var read, write := ReadError(w, t, channel, byteRoom, handleRoom), WriteError(w, t, channel, bytes, []);
      && (READABLE in signals <==> read != Some(ShouldWait) && read != Some(PeerClosed))
      && (WRITABLE in signals <==> write.None?)
      && (PEER_CLOSED in signals <==> write == Some(PeerClosed))
  {
    WriteRefusals(w, t, channel, bytes, [], e);
    ReadRefusals(w, t, channel, byteRoom, handleRoom, e);
  }

  // ------------------------------------------------------------------ effects

  /** All tables but these two are as they were. */
  ghost predicate OtherTablesKept(w: World, w': World, a: nat, b: nat)
  {
    |w'.tables| == |w.tables| && forall k :: 0 <= k < |w.tables| && k != a && k != b ==> w'.tables[k] == w.tables[k]
  }

  ghost predicate OtherChannelsKept(w: World, w': World, c: nat)
  {
    |w'.channels| == |w.channels| && forall k :: 0 <= k < |w.channels| && k != c ==> w'.channels[k] == w.channels[k]
  }

  /** The table after a batch has left it: the moved handles name nothing, all others what
      they named. */
  ghost predicate Left(before: seq<HandleSlot>, after: seq<HandleSlot>, batch: seq<Disposition>)
  {
    forall handle: u32 :: Naming(after, handle) == if Moved(batch, handle) then None else Naming(before, handle)
  }

  lemma TakenLeaves(slots: seq<HandleSlot>, batch: seq<Disposition>)
    requires TableInv(slots) && BatchOk(slots, batch)
    ensures Left(slots, TakeMoves(slots, batch), batch)
  {
    forall handle: u32
      ensures Naming(TakeMoves(slots, batch), handle) == if Moved(batch, handle) then None else Naming(slots, handle)
    {
      TakenNames(slots, batch, handle);
    }
  }

  /** One message more for the peer: the bytes, and what the batch asked for. */
  ghost predicate Sent(w: World, w': World, t: nat, e: Object, bytes: seq<u8>, batch: seq<Disposition>)
    requires Wf(w) && t < |w.tables| && IsEndpoint(w, e)
  {
    && OtherTablesKept(w, w', t, t) && Left(w.tables[t], w'.tables[t], batch)
    && OtherChannelsKept(w, w', e.channel) && Shape(w'.channels[e.channel])
    && exists handles ::
         && Asked(w.tables[t], batch, handles)
         && Queued(w.channels[e.channel], w'.channels[e.channel], 1 - e.side, Message(bytes, handles))
  }

  /** One message more waits for side `s`. */
  ghost predicate Queued(ch: Channel, ch': Channel, s: nat, m: Message)
    requires Shape(ch) && Shape(ch') && s < 2
  {
    && ch'.open == ch.open && ch'.received == ch.received
    && ch'.queues == ch.queues[s := ch.queues[s] + [m]] && ch'.sent == ch.sent[s := ch.sent[s] + [m]]
  }

  lemma WriteSends(w: World, t: nat, channel: u32, bytes: seq<u8>, batch: seq<Disposition>, e: Object)
    requires Wf(w) && MayWrite(w, t, channel, bytes, batch, e)
    ensures WriteError(w, t, channel, bytes, batch).None?
    ensures Sent(w, AfterWrite(w, t, channel, bytes, batch), t, e, bytes, batch)
  {
    WriteIsAllowedExactly(w, t, channel, bytes, batch);
    var _ := WriteAccepted(w, t, channel, bytes, batch);
    BatchErrorIsExact(w.tables[t], batch);
    CommittedIsSent(w, t, e, bytes, batch);
  }

  lemma CommittedIsSent(w: World, t: nat, e: Object, bytes: seq<u8>, batch: seq<Disposition>)
    requires Wf(w) && t < |w.tables| && IsEndpoint(w, e) && BatchOk(w.tables[t], batch)
    ensures
      var slots := w.tables[t];
      var ch := Push(w.channels[e.channel], 1 - e.side, Message(bytes, Prepared(slots, batch)));
      Sent(w, AddStrong(SetChannel(SetTable(w, t, TakeMoves(slots, batch)), e.channel, ch), Cloned(slots, batch)),
           t, e, bytes, batch)
  {
    var slots := w.tables[t];
    TakenLeaves(slots, batch);
    var m := Message(bytes, Prepared(slots, batch));
    assert Asked(slots, batch, m.handles);
    assert Queued(w.channels[e.channel], Push(w.channels[e.channel], 1 - e.side, m), 1 - e.side, m);
  }

  lemma AcceptedIsSent(w: World, t: nat, channel: u32, bytes: seq<u8>, batch: seq<Disposition>)
    requires Wf(w) && t < |w.tables| && WriteError(w, t, channel, bytes, batch).None?
    ensures exists e ::
      && MayWrite(w, t, channel, bytes, batch, e)
      && Sent(w, AfterWrite(w, t, channel, bytes, batch), t, e, bytes, batch)
  {
    WriteIsAllowedExactly(w, t, channel, bytes, batch);
    var e :| MayWrite(w, t, channel, bytes, batch, e);
    WriteSends(w, t, channel, bytes, batch, e);
  }

  /** A write changes the world only when it may, and then sends exactly what it was given. */
  lemma WriteNeedsTheRight(w: World, t: nat, channel: u32, bytes: seq<u8>, batch: seq<Disposition>)
    requires Wf(w)
    ensures
      var w' := Step(w, WriteChannel(t, channel, bytes, batch));
      w' != w ==> exists e :: MayWrite(w, t, channel, bytes, batch, e) && Sent(w, w', t, e, bytes, batch)
  {
    if t < |w.tables| && WriteError(w, t, channel, bytes, batch).None? {
      WriteIsAllowedExactly(w, t, channel, bytes, batch);
      var e :| MayWrite(w, t, channel, bytes, batch, e);
      WriteSends(w, t, channel, bytes, batch, e);
    }
  }

  /** The oldest message is gone from the queue, and its handles are in the table. */
  ghost predicate Taken(w: World, w': World, t: nat, e: Object, handles: seq<u32>)
    requires Wf(w) && t < |w.tables| && IsEndpoint(w, e) && w.channels[e.channel].queues[e.side] != []
  {
    && OtherTablesKept(w, w', t, t) && OtherChannelsKept(w, w', e.channel) && Shape(w'.channels[e.channel])
    && var ch, ch', peer := w.channels[e.channel], w'.channels[e.channel], 1 - e.side;
       && Installed(w.tables[t], w'.tables[t], handles, ch.queues[e.side][0].handles)
       && ch'.open == ch.open && ch'.sent == ch.sent
       && ch'.queues[peer] == ch.queues[peer] && ch'.received[peer] == ch.received[peer]
       && ch'.queues[e.side] == ch.queues[e.side][1..]
       && ch'.received[e.side] == ch.received[e.side] + [ch.queues[e.side][0]]
  }

  lemma ReadTakes(w: World, t: nat, channel: u32, byteRoom: nat, handleRoom: nat, e: Object)
    returns (handles: seq<u32>)
    requires Wf(w) && MayRead(w, t, channel, byteRoom, handleRoom, e)
    ensures ReadError(w, t, channel, byteRoom, handleRoom).None?
    ensures Taken(w, AfterRead(w, t, channel, byteRoom, handleRoom), t, e, handles)
  {
    ReadIsAllowedExactly(w, t, channel, byteRoom, handleRoom);
    handles := ReceivedNames(w.tables[t], w.channels[e.channel].queues[e.side][0].handles);
    ReadIsTaken(w, t, channel, byteRoom, handleRoom, e, handles);
  }

  lemma ReadIsTaken(
    w: World, t: nat, channel: u32, byteRoom: nat, handleRoom: nat, e: Object, handles: seq<u32>)
    requires Wf(w) && MayRead(w, t, channel, byteRoom, handleRoom, e)
    requires
      var entries := w.channels[e.channel].queues[e.side][0].handles;
      Installed(w.tables[t], Received(w.tables[t], entries), handles, entries)
    ensures ReadError(w, t, channel, byteRoom, handleRoom).None?
    ensures Taken(w, AfterRead(w, t, channel, byteRoom, handleRoom), t, e, handles)
  {
    ReadIsAllowedExactly(w, t, channel, byteRoom, handleRoom);
  }

  lemma AcceptedIsTaken(
    w: World, t: nat, channel: u32, byteRoom: nat, handleRoom: nat, e: Object, handles: seq<u32>)
    requires Wf(w) && t < |w.tables| && ReadError(w, t, channel, byteRoom, handleRoom).None? && IsEndpoint(w, e)
    requires May(w, t, channel, READ, e) && w.channels[e.channel].queues[e.side] != []
    requires |w.channels[e.channel].queues[e.side][0].handles| <= Available(w.tables[t])
    requires
      var entries := w.channels[e.channel].queues[e.side][0].handles;
      Installed(w.tables[t], Received(w.tables[t], entries), handles, entries)
    ensures MayRead(w, t, channel, byteRoom, handleRoom, e)
    ensures Taken(w, AfterRead(w, t, channel, byteRoom, handleRoom), t, e, handles)
  {
    ReadIsAllowedExactly(w, t, channel, byteRoom, handleRoom);
    ReadIsTaken(w, t, channel, byteRoom, handleRoom, e, handles);
  }

  /** A read changes the world only when it may, and then takes exactly the oldest message. */
  lemma ReadNeedsTheRight(w: World, t: nat, channel: u32, byteRoom: nat, handleRoom: nat)
    requires Wf(w)
    ensures
      var w' := Step(w, ReadChannel(t, channel, byteRoom, handleRoom));
      w' != w ==> exists e, handles ::
        MayRead(w, t, channel, byteRoom, handleRoom, e) && Taken(w, w', t, e, handles)
  {
    if t < |w.tables| && ReadError(w, t, channel, byteRoom, handleRoom).None? {
      ReadIsAllowedExactly(w, t, channel, byteRoom, handleRoom);
      var e :| MayRead(w, t, channel, byteRoom, handleRoom, e);
      var handles := ReadTakes(w, t, channel, byteRoom, handleRoom, e);
    }
  }

  /** The batch has left one table and arrived in the other, with the rights it asked for. */
  ghost predicate Transferred(
    w: World, w': World, source: nat, destination: nat, batch: seq<Disposition>, handles: seq<u32>)
    requires source < |w.tables| && destination < |w.tables|
  {
    && OtherTablesKept(w, w', source, destination) && w'.channels == w.channels
    && Left(w.tables[source], w'.tables[source], batch)
    && exists entries ::
         Asked(w.tables[source], batch, entries) &&
         Installed(w.tables[destination], w'.tables[destination], handles, entries)
  }

  ghost predicate MayTransfer(w: World, source: nat, destination: nat, batch: seq<Disposition>)
    requires Wf(w)
  {
    && source < |w.tables| && destination < |w.tables| && source != destination
    && MayDisposeAll(w.tables[source], batch) && |batch| <= Available(w.tables[destination])
  }

  lemma TransferMoves(w: World, source: nat, destination: nat, batch: seq<Disposition>) returns (handles: seq<u32>)
    requires Wf(w) && MayTransfer(w, source, destination, batch)
    ensures TransferError(w, source, destination, batch).None?
    ensures Transferred(w, AfterTransfer(w, source, destination, batch), source, destination, batch, handles)
  {
    var slots := w.tables[source];
    BatchErrorIsFirst(slots, batch);
    BatchErrorIsExact(slots, batch);
    TakenLeaves(slots, batch);
    handles := ReceivedNames(w.tables[destination], Prepared(slots, batch));
    BatchIsTransferred(w, source, destination, batch, handles);
  }

  lemma BatchIsTransferred(w: World, source: nat, destination: nat, batch: seq<Disposition>, handles: seq<u32>)
    requires Wf(w) && source < |w.tables| && destination < |w.tables| && source != destination
    requires TransferError(w, source, destination, batch).None?
    requires
      var slots, entries := w.tables[source], Prepared(w.tables[source], batch);
      && Left(slots, TakeMoves(slots, batch), batch)
      && Installed(w.tables[destination], Received(w.tables[destination], entries), handles, entries)
    ensures Transferred(w, AfterTransfer(w, source, destination, batch), source, destination, batch, handles)
  {
    assert Asked(w.tables[source], batch, Prepared(w.tables[source], batch));
  }

  lemma AcceptedIsTransferred(w: World, source: nat, destination: nat, batch: seq<Disposition>, handles: seq<u32>)
    requires Wf(w) && source < |w.tables| && destination < |w.tables| && source != destination
    requires TransferError(w, source, destination, batch).None?
    requires
      var entries := Prepared(w.tables[source], batch);
      Installed(w.tables[destination], Received(w.tables[destination], entries), handles, entries)
    ensures MayTransfer(w, source, destination, batch)
    ensures Transferred(w, AfterTransfer(w, source, destination, batch), source, destination, batch, handles)
  {
    BatchErrorIsFirst(w.tables[source], batch);
    BatchErrorIsExact(w.tables[source], batch);
    TakenLeaves(w.tables[source], batch);
    BatchIsTransferred(w, source, destination, batch, handles);
  }

  /** A transfer happens exactly when it may; otherwise nothing does. */
  lemma TransferNeedsTheRights(w: World, source: nat, destination: nat, batch: seq<Disposition>)
    requires Wf(w)
    ensures
      var w' := Step(w, TransferHandles(source, destination, batch));
      if MayTransfer(w, source, destination, batch)
      then exists handles :: Transferred(w, w', source, destination, batch, handles) else w' == w
  {
    if MayTransfer(w, source, destination, batch) {
      var handles := TransferMoves(w, source, destination, batch);
      TransferSteps(w, source, destination, batch);
      assert Transferred(w, AfterTransfer(w, source, destination, batch), source, destination, batch, handles);
    } else {
      TransferStays(w, source, destination, batch);
    }
  }

  lemma TransferSteps(w: World, source: nat, destination: nat, batch: seq<Disposition>)
    requires Wf(w) && source < |w.tables| && destination < |w.tables| && source != destination
    requires TransferError(w, source, destination, batch).None?
    ensures Step(w, TransferHandles(source, destination, batch)) == AfterTransfer(w, source, destination, batch)
  {
  }

  lemma TransferStays(w: World, source: nat, destination: nat, batch: seq<Disposition>)
    requires Wf(w) && !MayTransfer(w, source, destination, batch)
    ensures Step(w, TransferHandles(source, destination, batch)) == w
  {
    if source < |w.tables| { BatchErrorIsFirst(w.tables[source], batch); }
  }

  ghost predicate MayCopy(w: World, t: nat, handle: u32, rights: Rights)
    requires Wf(w)
  {
    && t < |w.tables| && Lookup(w.tables[t], handle).Some? && DUPLICATE in EntryOf(w.tables[t], handle).rights
    && rights <= EntryOf(w.tables[t], handle).rights && Available(w.tables[t]) >= 1
  }

  /** Duplicating adds one handle for the same object with the requested rights, exactly
      when the original carries DUPLICATE and those rights; otherwise it does nothing. */
  lemma CopyNeedsTheRights(w: World, t: nat, handle: u32, rights: Rights)
    requires Wf(w)
    ensures
      var w' := Step(w, CopyHandle(t, handle, rights));
      if MayCopy(w, t, handle, rights)
      then
        && OtherTablesKept(w, w', t, t) && w'.channels == w.channels
        && exists alias :: Installed(
             w.tables[t], w'.tables[t], [alias], [HandleEntry(EntryOf(w.tables[t], handle).obj, rights)])
      else w' == w
  {
    if MayCopy(w, t, handle, rights) {
      var handles := ReceivedNames(w.tables[t], [HandleEntry(EntryOf(w.tables[t], handle).obj, rights)]);
      assert handles == [handles[0]];
    }
  }

  // --------------------------------------------------------------- every step

  /** The channel is there afterwards, with the same messages sent and received. */
  ghost predicate Quiet(w: World, w': World, c: nat)
    requires Wf(w) && Wf(w') && c < |w.channels|
  {
    c < |w'.channels| && w'.channels[c].sent == w.channels[c].sent && w'.channels[c].received == w.channels[c].received
  }

  lemma OthersAreQuiet(w: World, op: Op, c: nat)
    requires Inv(w) && c < |w.channels| && !op.WriteChannel? && !op.ReadChannel?
    ensures Wf(Step(w, op)) && Quiet(w, Step(w, op), c)
  {
    StepKeepsInv(w, op);
    match op
    case CreateChannel(left, right) => CreateIsQuiet(w, left, right, c);
    case ForgetBuffer(x, side) => LosingIsQuiet(w, x, side, c);
    case FinishDrop(x, side) => ClosingIsQuiet(w, x, side, c);
    case _ => OthersKeepChannels(w, op);
  }

  lemma CreateIsQuiet(w: World, left: nat, right: nat, c: nat)
    requires Wf(w) && c < |w.channels|
    ensures var w' := Step(w, CreateChannel(left, right)); c < |w'.channels| && w'.channels[c] == w.channels[c]
  {
  }

  lemma LosingIsQuiet(w: World, x: nat, side: nat, c: nat)
    requires Wf(w) && c < |w.channels| && Wf(Step(w, ForgetBuffer(x, side)))
    ensures Quiet(w, Step(w, ForgetBuffer(x, side)), c)
  {
  }

  lemma ClosingIsQuiet(w: World, x: nat, side: nat, c: nat)
    requires Wf(w) && c < |w.channels| && Wf(Step(w, FinishDrop(x, side)))
    ensures Quiet(w, Step(w, FinishDrop(x, side)), c)
  {
  }

  /** The messages for side `s` of channel `c` after a write. */
  ghost predicate WroteTo(w: World, w': World, c: nat, s: nat, op: Op)
    requires Wf(w) && Wf(w') && c < |w.channels| && s < 2
  {
    && op.WriteChannel? && MayWrite(w, op.t, op.channel, op.bytes, op.batch, Endpoint(c, 1 - s))
    && Quietly(w, w', c, s) && exists handles ::
         Asked(w.tables[op.t], op.batch, handles) &&
         w'.channels[c].sent[s] == w.channels[c].sent[s] + [Message(op.bytes, handles)]
  }

  /** Nothing happened on the other side, and nothing was read. */
  ghost predicate Quietly(w: World, w': World, c: nat, s: nat)
    requires Wf(w) && Wf(w') && c < |w.channels| && s < 2
  {
    && c < |w'.channels| && w'.channels[c].sent[1 - s] == w.channels[c].sent[1 - s]
    && w'.channels[c].received == w.channels[c].received
  }

  ghost predicate ReadFrom(w: World, w': World, c: nat, s: nat, op: Op)
    requires Wf(w) && Wf(w') && c < |w.channels| && s < 2
  {
    && op.ReadChannel? && MayRead(w, op.t, op.channel, op.byteRoom, op.handleRoom, Endpoint(c, s))
    && c < |w'.channels| && w'.channels[c].sent == w.channels[c].sent
    && w'.channels[c].received[1 - s] == w.channels[c].received[1 - s]
    && w'.channels[c].received[s] == w.channels[c].received[s] + [w.channels[c].queues[s][0]]
  }

  ghost predicate Explained(w: World, w': World, c: nat, op: Op)
    requires Wf(w) && Wf(w') && c < |w.channels|
  {
    Quiet(w, w', c) || exists s: nat :: s < 2 && (WroteTo(w, w', c, s, op) || ReadFrom(w, w', c, s, op))
  }

  /** Only a write through a handle with WRITE on the other endpoint adds to what a side is
      sent, and only a read through a handle with READ on its endpoint to what it received. */
  lemma OnlyRightsMoveMessages(w: World, op: Op, c: nat)
    requires Inv(w) && c < |w.channels|
    ensures Wf(Step(w, op))
    ensures Explained(w, Step(w, op), c, op)
  {
    StepKeepsInv(w, op);
    if op.WriteChannel? {
      WriteMoves(w, op, c);
    } else if op.ReadChannel? {
      ReadMoves(w, op, c);
    } else {
      OthersAreQuiet(w, op, c);
    }
  }

  lemma WriteMoves(w: World, op: Op, c: nat)
    requires Inv(w) && c < |w.channels| && op.WriteChannel? && Wf(Step(w, op))
    ensures Explained(w, Step(w, op), c, op)
  {
    WriteNeedsTheRight(w, op.t, op.channel, op.bytes, op.batch);
    SentIsExplained(w, Step(w, op), op, c);
  }

  lemma SentIsExplained(w: World, w': World, op: Op, c: nat)
    requires Wf(w) && Wf(w') && c < |w.channels| && op.WriteChannel?
    requires w' != w ==> exists e ::
      MayWrite(w, op.t, op.channel, op.bytes, op.batch, e) && Sent(w, w', op.t, e, op.bytes, op.batch)
    ensures Explained(w, w', c, op)
  {
    if w' != w {
      var e :| MayWrite(w, op.t, op.channel, op.bytes, op.batch, e) && Sent(w, w', op.t, e, op.bytes, op.batch);
      if e.channel == c {
        assert e == Endpoint(c, 1 - (1 - e.side));
        assert WroteTo(w, w', c, 1 - e.side, op);
      }
    }
  }

  lemma ReadMoves(w: World, op: Op, c: nat)
    requires Inv(w) && c < |w.channels| && op.ReadChannel? && Wf(Step(w, op))
    ensures Explained(w, Step(w, op), c, op)
  {
    ReadNeedsTheRight(w, op.t, op.channel, op.byteRoom, op.handleRoom);
    TakenIsExplained(w, Step(w, op), op, c);
  }

  lemma TakenIsExplained(w: World, w': World, op: Op, c: nat)
    requires Wf(w) && Wf(w') && c < |w.channels| && op.ReadChannel?
    requires w' != w ==> exists e, handles ::
      MayRead(w, op.t, op.channel, op.byteRoom, op.handleRoom, e) && Taken(w, w', op.t, e, handles)
    ensures Explained(w, w', c, op)
  {
    if w' != w {
      var e, handles :|
        MayRead(w, op.t, op.channel, op.byteRoom, op.handleRoom, e) && Taken(w, w', op.t, e, handles);
      if e.channel == c { assert ReadFrom(w, w', c, e.side, op); }
    }
  }

  /** What an event is part of doing, if it is an operation or a step of a write. */
  ghost function Doing(k: Kernel, e: Event): Op
  {
    if e.Other? then e.op else if k.writing.Some? then WriteOp(k.writing.value) else NewTable
  }

  /** So it is while writes run in steps with other operations in between: each event
      amounts to one operation at most, with the rights it needs at that moment. */
  lemma OnlyRightsMoveMessagesMeanwhile(k: Kernel, e: Event, c: nat)
    requires KernelInv(k) && c < |k.world.channels|
    ensures KernelInv(Next(k, e))
    ensures Explained(k.world, Next(k, e).world, c, Doing(k, e))
  {
    NextKeepsInv(k, e);
    NextIsAtomic(k, e);
    var ops := AtomicOps(k, e);
    if ops == [] {
      assert Quiet(k.world, k.world, c);
    } else {
      RunOne(k.world, ops[0]);
      assert ops == [ops[0]];
      OnlyRightsMoveMessages(k.world, ops[0], c);
    }
  }

  // ----------------------------------------------------------------- delivery

  lemma SentGrows(w: World, op: Op, c: nat, s: nat)
    requires Inv(w) && c < |w.channels| && s < 2
    ensures Wf(Step(w, op)) && c < |Step(w, op).channels| && w.channels[c].sent[s] <= Step(w, op).channels[c].sent[s]
  {
    OnlyRightsMoveMessages(w, op, c);
    ExplainedGrows(w, Step(w, op), c, s, op);
  }

  lemma ExplainedGrows(w: World, w': World, c: nat, s: nat, op: Op)
    requires Wf(w) && Wf(w') && c < |w.channels| && s < 2 && Explained(w, w', c, op)
    ensures c < |w'.channels| && w.channels[c].sent[s] <= w'.channels[c].sent[s]
  {
    if !Quiet(w, w', c) {
      var side: nat :| side < 2 && (WroteTo(w, w', c, side, op) || ReadFrom(w, w', c, side, op));
      if s == side || s == 1 - side {}
    }
  }

  lemma {:induction false} SentGrowsOverRuns(w: World, ops: seq<Op>, c: nat, s: nat)
    requires Inv(w) && c < |w.channels| && s < 2
    ensures Wf(Run(w, ops)) && c < |Run(w, ops).channels|
    ensures w.channels[c].sent[s] <= Run(w, ops).channels[c].sent[s]
    decreases |ops|
  {
    if ops != [] {
      SentGrows(w, ops[0], c, s);
      StepKeepsInv(w, ops[0]);
      SentGrowsOverRuns(Step(w, ops[0]), ops[1..], c, s);
      PrefixTransitive(w.channels[c].sent[s], Step(w, ops[0]).channels[c].sent[s],
                       Run(Step(w, ops[0]), ops[1..]).channels[c].sent[s]);
    }
  }

  lemma PrefixTransitive(a: seq<Message>, b: seq<Message>, c: seq<Message>)
    requires a <= b && b <= c
    ensures a <= c
  {
  }

  /** New handles for what the batch named, with the rights it named. */
  ghost predicate Arrived(
    source: seq<HandleSlot>, batch: seq<Disposition>, before: seq<HandleSlot>, after: seq<HandleSlot>,
    handles: seq<u32>)
  {
    && |handles| == |batch|
    && forall i :: 0 <= i < |batch| ==>
         && Lookup(source, batch[i].handle).Some? && Naming(before, handles[i]) == None
         && Naming(after, handles[i]) == Some(HandleEntry(EntryOf(source, batch[i].handle).obj, batch[i].rights))
  }

  /** The message a write sends is still in its place however the run goes on. */
  lemma SentStaysSent(w: World, op: Op, e: Object, ops: seq<Op>, now: World)
    requires Inv(w) && op.WriteChannel? && MayWrite(w, op.t, op.channel, op.bytes, op.batch, e)
    requires now == Run(Step(w, op), ops)
    ensures Inv(now) && IsEndpoint(now, e) && Awaits(w, op, e, now)
  {
    WriteNeedsTheRight(w, op.t, op.channel, op.bytes, op.batch);
    WriteChanges(w, op, e);
    StepKeepsInv(w, op);
    RunKeepsInv(Step(w, op), ops);
    SentGrowsOverRuns(Step(w, op), ops, e.channel, 1 - e.side);
    SentLast(w, Step(w, op), op, e, now);
  }

  /** What was written is, or was, next after everything sent before it. */
  ghost predicate Awaits(w: World, op: Op, e: Object, now: World)
    requires Wf(w) && op.WriteChannel? && op.t < |w.tables| && IsEndpoint(w, e) && Wf(now) && IsEndpoint(now, e)
  {
    var sent, n := now.channels[e.channel].sent[1 - e.side], |w.channels[e.channel].sent[1 - e.side]|;
    n < |sent| && sent[n].bytes == op.bytes && Asked(w.tables[op.t], op.batch, sent[n].handles)
  }

  lemma WriteChanges(w: World, op: Op, e: Object)
    requires Inv(w) && op.WriteChannel? && MayWrite(w, op.t, op.channel, op.bytes, op.batch, e)
    ensures Sent(w, Step(w, op), op.t, e, op.bytes, op.batch)
  {
    WriteSends(w, op.t, op.channel, op.bytes, op.batch, e);
    WriteSteps(w, op);
  }

  lemma WriteSteps(w: World, op: Op)
    requires Wf(w) && op.WriteChannel? && op.t < |w.tables|
    requires WriteError(w, op.t, op.channel, op.bytes, op.batch).None?
    ensures Step(w, op) == AfterWrite(w, op.t, op.channel, op.bytes, op.batch)
  {
  }

  lemma SentLast(w: World, w': World, op: Op, e: Object, now: World)
    requires Wf(w) && Wf(w') && Wf(now) && op.WriteChannel? && op.t < |w.tables| && IsEndpoint(w, e)
    requires Sent(w, w', op.t, e, op.bytes, op.batch) && e.channel < |now.channels|
    requires w'.channels[e.channel].sent[1 - e.side] <= now.channels[e.channel].sent[1 - e.side]
    ensures Awaits(w, op, e, now)
  {
    var s, n := 1 - e.side, |w.channels[e.channel].sent[1 - e.side]|;
    assert now.channels[e.channel].sent[s][n] == w'.channels[e.channel].sent[s][n];
  }

  /** Everything sent before the message has been read. */
  ghost predicate IsNext(w: World, e: Object, now: World)
    requires Wf(w) && IsEndpoint(w, e) && Wf(now) && IsEndpoint(now, e)
  {
    |now.channels[e.channel].received[1 - e.side]| == |w.channels[e.channel].sent[1 - e.side]|
  }

  /** The read takes these bytes and brings these handles for what the batch named. */
  ghost predicate Delivered(w: World, write: Op, e: Object, now: World, read: Op, handles: seq<u32>)
    requires Wf(w) && write.WriteChannel? && write.t < |w.tables|
    requires Wf(now) && read.ReadChannel? && read.t < |now.tables| && IsEndpoint(now, e)
  {
    var after := Step(now, read);
    && now.channels[e.channel].queues[1 - e.side] != []
    && now.channels[e.channel].queues[1 - e.side][0].bytes == write.bytes
    && read.t < |after.tables|
    && Arrived(w.tables[write.t], write.batch, now.tables[read.t], after.tables[read.t], handles)
  }

  lemma ReadDelivers(w: World, write: Op, e: Object, now: World, read: Op) returns (handles: seq<u32>)
    requires Wf(w) && write.WriteChannel? && write.t < |w.tables| && IsEndpoint(w, e)
    requires Wf(now) && read.ReadChannel? && IsEndpoint(now, e) && Awaits(w, write, e, now) && IsNext(w, e, now)
    requires MayRead(now, read.t, read.channel, read.byteRoom, read.handleRoom, Endpoint(e.channel, 1 - e.side))
    ensures Delivered(w, write, e, now, read, handles)
  {
    DeliveryIsFifo(now.channels[e.channel], 1 - e.side);
    handles := ReadTakes(
      now, read.t, read.channel, read.byteRoom, read.handleRoom, Endpoint(e.channel, 1 - e.side));
  }

  /** Whatever happens in between, once the peer has read everything sent before it, its
      next read delivers exactly the bytes written and, in order, new handles for the
      objects the batch named, with exactly the rights it named. */
  lemma WrittenIsDelivered(w: World, write: Op, e: Object, ops: seq<Op>, now: World, read: Op)
    returns (handles: seq<u32>)
    requires Inv(w) && write.WriteChannel? && MayWrite(w, write.t, write.channel, write.bytes, write.batch, e)
    requires Wf(now) && read.ReadChannel? && IsEndpoint(now, e) && IsNext(w, e, now)
    requires MayRead(now, read.t, read.channel, read.byteRoom, read.handleRoom, Endpoint(e.channel, 1 - e.side))
    requires now == Run(Step(w, write), ops)
    ensures Delivered(w, write, e, now, read, handles)
  {
    SentStaysSent(w, write, e, ops, now);
    handles := ReadDelivers(w, write, e, now, read);
  }
}
