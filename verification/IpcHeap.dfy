/** The operations as the kernel performs them: loops over slots, dispositions and queues
    that update handle tables, channels and reference counts in place. Each is proved to
    have exactly the effect of one step of the world, or none at all. */
module IpcHeap {
  import opened Objects
  import opened Handles
  import opened Transfers
  import opened Channels
  import opened ChannelGraph
  import opened World
  import opened WorldInvariant
  import opened Authority
  import opened Reclamation

  /** Validates a batch in order and prepares what it will deliver; changes nothing. */
  method PrepareBatch(table: HandleTable, batch: seq<Disposition>) returns (r: Result<seq<HandleEntry>, IpcError>)
    ensures r.Err? && r.error != OutOfMemory ==> BatchError(table.slots, batch) == Some(r.error)
    ensures r.Ok? ==> BatchError(table.slots, batch).None? && r.value == Prepared(table.slots, batch)
    ensures r.Err? && r.error != OutOfMemory ==> exists i: nat :: FirstRefused(table.slots, batch, i, r.error)
    ensures r.Ok? ==> MayDisposeAll(table.slots, batch) && Asked(table.slots, batch, r.value)
  {
    BatchErrorIsFirst(table.slots, batch);
    var ok := TryAllocate();
    if !ok { return Err(OutOfMemory); }
    r := PrepareEach(table, batch);
  }

  method PrepareEach(table: HandleTable, batch: seq<Disposition>) returns (r: Result<seq<HandleEntry>, IpcError>)
    ensures BatchError(table.slots, batch) == if r.Ok? then None else Some(r.error)
    ensures r.Ok? ==> r.value == Prepared(table.slots, batch)
  {
    var prepared: seq<HandleEntry> := [];
    for i := 0 to |batch|
      invariant |prepared| == i
      invariant BatchError(table.slots, batch) == BatchErrorFrom(table.slots, batch, i)
      invariant forall k :: 0 <= k < i ==> Lookup(table.slots, batch[k].handle).Some?
      invariant forall k :: 0 <= k < i ==>
                  prepared[k] == HandleEntry(EntryOf(table.slots, batch[k].handle).obj, batch[k].rights)
    {
      var d := batch[i];
      for j := 0 to i
        invariant forall k :: 0 <= k < j ==> batch[k].handle != d.handle
      {
        if batch[j].handle == d.handle { return Err(DuplicateHandle); }
      }
      var slot := table.ValidatedSlot(d.handle);
      if slot.Err? { return Err(InvalidHandle); }
      var entry := table.slots[slot.value].entry.value;
      if RequiredRight(d.operation) !in entry.rights { return Err(AccessDenied); }
      if !(d.rights <= entry.rights) { return Err(InvalidRights); }
      prepared := prepared + [HandleEntry(entry.obj, d.rights)];
    }
    return Ok(prepared);
  }

  /** Runs the search for every prepared capability, sharing one visited set, while other
      threads keep removing references: `views(i)` is what the i-th lock acquisition shows.
      A refusal was right when the search began; an acceptance is right when it ends. */
  method FindsCycle(prepared: seq<HandleEntry>, c: nat, views: nat -> seq<Channel>, ghost n: nat)
    returns (r: Result<bool, IpcError>, tick: nat)
    requires OnlyRemovals(views) && Known(views, n)
    requires forall i :: 0 <= i < |prepared| && prepared[i].obj.Endpoint? ==> prepared[i].obj.channel < n
    ensures r.Err? ==> r.error == OutOfMemory
    ensures r == Ok(true) ==> ClosesCycle(views(0), prepared, c)
    ensures r == Ok(false) ==> !ClosesCycle(views(tick), prepared, c)
  {
    var visited: seq<nat> := [];
    tick := 0;
    for i := 0 to |prepared|
      invariant c !in visited && ClosedUpTo(views(tick), visited, [])
      invariant !ClosesCycle(views(tick), prepared[..i], c)
    {
      ghost var before := tick;
      var found: Result<bool, IpcError>;
      found, visited, tick := ObjectReachesChannel(prepared[i].obj, c, visited, views, tick, n);
      if found.Err? { return Err(OutOfMemory), tick; }
      if found.value {
        RemovalsCompose(views, 0, before);
        SubgraphReaches(views(before), views(0), prepared[i].obj.channel, c);
        return Ok(true), tick;
      }
      RemovalsCompose(views, before, tick);
      StillNoCycle(views(tick), views(before), prepared, i, c);
    }
    assert prepared[..|prepared|] == prepared;
    return Ok(false), tick;
  }

  lemma StillNoCycle(small: seq<Channel>, large: seq<Channel>, prepared: seq<HandleEntry>, i: nat, c: nat)
    requires Subgraph(small, large) && i < |prepared| && !ClosesCycle(large, prepared[..i], c)
    requires prepared[i].obj.Endpoint? ==> !Reaches(small, prepared[i].obj.channel, c)
    ensures !ClosesCycle(small, prepared[..i + 1], c)
  {
    forall k | 0 <= k <= i && prepared[k].obj.Endpoint? ensures !Reaches(small, prepared[k].obj.channel, c) {
      if k < i {
        assert prepared[..i][k] == prepared[k];
        assert !Reaches(large, prepared[k].obj.channel, c);
        if Reaches(small, prepared[k].obj.channel, c) { SubgraphReaches(small, large, prepared[k].obj.channel, c); }
      }
    }
  }

  /** The search over a graph that nobody changes decides exactly whether there is a cycle. */
  method FindsCycleAlone(channels: seq<Channel>, prepared: seq<HandleEntry>, c: nat, ghost w: World)
    returns (r: Result<bool, IpcError>)
    requires channels == w.channels && Wf(w) && Linked(w)
    requires forall i :: 0 <= i < |prepared| && prepared[i].obj.Endpoint? ==> IsEndpoint(w, prepared[i].obj)
    ensures r.Err? ==> r.error == OutOfMemory
    ensures r.Ok? ==> (r.value <==> ClosesCycle(channels, prepared, c))
  {
    var views := (i: nat) => channels;
    forall a: nat, d: nat | Carries(views(0), a, d) ensures d < |channels| { CarriedIsKnown(w, a, d); }
    var tick;
    r, tick := FindsCycle(prepared, c, views, |channels|);
  }

  /** A byte-only write that ran out of memory may have given up one recycled buffer. */
  ghost predicate LostBuffer(w: World, w': World)
    requires Wf(w)
  {
    exists c, side :: w' == Step(w, ForgetBuffer(c, side))
  }

  lemma TransferEitherOrder(w: World, source: nat, destination: nat, batch: seq<Disposition>)
    requires Wf(w) && source < |w.tables| && destination < |w.tables| && source != destination
    requires TransferError(w, source, destination, batch).None?
    ensures var got := Received(w.tables[destination], Prepared(w.tables[source], batch));
            AfterTransfer(w, source, destination, batch) ==
              AddStrong(SetTable(SetTable(w, destination, got), source, TakeMoves(w.tables[source], batch)),
                        Cloned(w.tables[source], batch))
  {
  }

  /** Destructor steps `ops` lead from `w` to `now`. */
  ghost predicate Cascaded(w: World, ops: seq<Op>, now: World)
  {
    Cascade(w, ops) && now == Run(w, ops)
  }

  lemma NextDrop(w: World, ops: seq<Op>, now: World)
    requires Cascaded(w, ops, now) && Wf(now) && now.dropping != [] && NothingDying(now)
    ensures Cascaded(w, ops + [DropReference(|now.dropping| - 1)], Step(now, DropReference(|now.dropping| - 1)))
  {
    CascadeSnoc(w, ops, DropReference(|now.dropping| - 1));
  }

  class Heap {
    var tables: seq<HandleTable>
    var channels: seq<Channel>
    var strong: multiset<Object>
    var granted: map<Object, Rights>
    var dropping: seq<HandleEntry>

    ghost function View(): World
      reads this, tables
    {
      World(seq(|tables|, i requires 0 <= i < |tables| reads this, tables => tables[i].slots),
            channels, strong, granted, dropping)
    }

    ghost predicate Valid()
      reads this, tables
    {
      && (forall i, j :: 0 <= i < j < |tables| ==> tables[i] != tables[j])
      && (forall i :: 0 <= i < |tables| ==> tables[i].Valid())
      && (forall c :: 0 <= c < |channels| ==> ChannelInv(channels[c]))
    }

    lemma ValidIsWf()
      requires Valid()
      ensures Wf(View())
    {
    }

    constructor ()
      ensures Valid() && View() == INITIAL
    {
      tables, channels, strong, granted, dropping := [], [], multiset{}, map[], [];
    }

    lemma ViewOfOneTable(t: nat, w: World)
      requires Valid() && t < |tables| && |w.tables| == |tables|
      requires forall i :: 0 <= i < |tables| && i != t ==> w.tables[i] == tables[i].slots
      ensures View().tables == w.tables[t := tables[t].slots]
    {
    }

    method ReceiveInto(t: nat, entries: seq<HandleEntry>) returns (r: Result<seq<u32>, IpcError>)
      requires Valid() && t < |tables|
      modifies tables[t]
      ensures Valid() && (r.Err? ==> View() == old(View()))
      ensures r.Err? && r.error != OutOfMemory ==> RoomError(entries, old(tables[t].slots)) == Some(r.error)
      ensures r.Ok? ==> |entries| <= Available(old(tables[t].slots))
      ensures r.Ok? ==> View() == SetTable(old(View()), t, Received(old(tables[t].slots), entries))
      ensures r.Ok? ==> tables[t].issued == old(tables[t].issued) + r.value
      ensures r.Ok? ==> Installed(old(tables[t].slots), tables[t].slots, r.value, entries)
    {
      ghost var w := View();
      r := Receive(tables[t], entries);
      ViewOfOneTable(t, w);
    }

    method SetChannelAt(c: nat, ch: Channel)
      requires Valid() && c < |channels| && ChannelInv(ch)
      modifies this`channels
      ensures Valid() && View() == SetChannel(old(View()), c, ch)
    {
      ghost var w := View();
      channels := channels[c := ch];
      assert View().tables == w.tables;
    }

    method TakeFrom(t: nat, batch: seq<Disposition>)
      requires Valid() && t < |tables| && BatchOk(tables[t].slots, batch)
      modifies tables[t]
      ensures tables[t].issued == old(tables[t].issued)
      ensures Valid() && View() == SetTable(old(View()), t, TakeMoves(old(tables[t].slots), batch))
    {
      ghost var w := View();
      TakeBatch(tables[t], batch);
      ViewOfOneTable(t, w);
    }

    /** Makes a channel and installs both of its endpoints in one table. */
    method ChannelCreate(t: nat) returns (r: Result<seq<u32>, IpcError>)
      requires Valid() && t < |tables|
      modifies this`channels, this`strong, this`granted, tables[t]
      ensures Valid() && Wf(old(View()))
      ensures r.Err? ==>
        View() == old(View()) || (r.error == OutOfMemory && View() == Step(old(View()), ExtendTable(t, 2)))
      ensures r.Err? && r.error != OutOfMemory ==> r.error == HandleTableFull && !RoomForChannel(old(View()), t, t)
      ensures r.Ok? ==> RoomForChannel(old(View()), t, t) && View() == AfterCreateChannel(old(View()), t, t)
      ensures r.Ok? ==> |r.value| == 2 && tables[t].issued == old(tables[t].issued) + r.value
      ensures r.Ok? ==>
        var c := |old(channels)|;
        channels == old(channels) + [NEW_CHANNEL] &&
        Installed(old(tables[t].slots), tables[t].slots, r.value,
                  [HandleEntry(Endpoint(c, 0), CHANNEL_DEFAULT_RIGHTS),
                   HandleEntry(Endpoint(c, 1), CHANNEL_DEFAULT_RIGHTS)])
    {
      ghost var w := View();
      ValidIsWf();
      var left := HandleEntry(Endpoint(|channels|, 0), CHANNEL_DEFAULT_RIGHTS);
      var right := HandleEntry(Endpoint(|channels|, 1), CHANNEL_DEFAULT_RIGHTS);
      r := ReceiveNew(tables[t], [left, right]);
      ViewOfOneTable(t, w);
      if r.Err? {
        assert View() == SetTable(w, t, tables[t].slots);
        return;
      }
      AddChannelObjects(left, right);
    }

    method AddChannelObjects(left: HandleEntry, right: HandleEntry)
      requires Valid()
      modifies this`channels, this`strong, this`granted
      ensures Valid() && View() == Grant(Grant(AddChannel(old(View())), left), right)
    {
      ghost var w := View();
      channels := channels + [NEW_CHANNEL];
      strong := strong + multiset{left.obj} + multiset{right.obj};
      granted := granted[left.obj := left.rights][right.obj := right.rights];
      assert View().tables == w.tables;
    }

    /** Closing hands the reference over to its destructor. */
    method HandleClose(t: nat, handle: u32) returns (r: Result<(), IpcError>)
      requires Valid() && t < |tables|
      modifies this`dropping, tables[t]
      ensures Valid() && Wf(old(View())) && View() == Step(old(View()), CloseHandle(t, handle))
      ensures r == if Lookup(old(View()).tables[t], handle).Some? then Ok(()) else Err(InvalidHandle)
      ensures r.Ok? ==>
        && dropping == old(dropping) + [EntryOf(old(tables[t].slots), handle)]
        && Lookup(tables[t].slots, handle).None?
        && forall h :: h != handle && Lookup(old(tables[t].slots), h).Some? ==>
          && Lookup(tables[t].slots, h) == Lookup(old(tables[t].slots), h)
          && EntryOf(tables[t].slots, h) == EntryOf(old(tables[t].slots), h)
    {
      ghost var w := View();
      ValidIsWf();
      var taken := tables[t].HandleClose(handle);
      assert View().tables == w.tables[t := tables[t].slots];
      if taken.Err? { return Err(taken.error); }
      dropping := dropping + [taken.value];
      return Ok(());
    }

    /** Creates an alias with equal or fewer rights. */
    method HandleDuplicate(t: nat, handle: u32, rights: Rights) returns (r: Result<u32, IpcError>)
      requires Valid() && t < |tables|
      modifies this`strong, tables[t]
      ensures Valid() && Wf(old(View()))
      ensures r.Err? ==> View() == old(View())
      ensures r.Err? && r.error != OutOfMemory ==> CopyError(old(View()), t, handle, rights) == Some(r.error)
      ensures r.Ok? ==>
        CopyError(old(View()), t, handle, rights).None? && View() == AfterCopy(old(View()), t, handle, rights)
      ensures r.Ok? ==> tables[t].issued == old(tables[t].issued) + [r.value]
      ensures r.Ok? ==> MayCopy(old(View()), t, handle, rights)
      ensures r.Ok? ==>
        Installed(old(tables[t].slots), tables[t].slots, [r.value],
                  [HandleEntry(EntryOf(old(tables[t].slots), handle).obj, rights)])
    {
      ghost var w := View();
      ValidIsWf();
      var table := tables[t];
      var slot := table.ValidatedSlot(handle);
      if slot.Err? { return Err(InvalidHandle); }
      var entry := table.slots[slot.value].entry.value;
      if DUPLICATE !in entry.rights { return Err(AccessDenied); }
      if !(rights <= entry.rights) { return Err(InvalidRights); }
      var received := ReceiveInto(t, [HandleEntry(entry.obj, rights)]);
      if received.Err? { return Err(received.error); }
      strong := strong + multiset{entry.obj};
      assert received.value == [received.value[0]];
      return Ok(received.value[0]);
    }

    /** Counts one more reference for every duplicated handle. */
    method CountClones(t: nat, batch: seq<Disposition>)
      requires t < |tables| && AllLive(tables[t].slots, batch)
      modifies this`strong
      ensures View() == AddStrong(old(View()), Cloned(tables[t].slots, batch))
    {
      ghost var w := View();
      var clones := CloneRefs(tables[t], batch);
      strong := strong + clones;
      assert View().tables == w.tables;
    }

    /** One more reference for every duplicated source. */
    static method CloneRefs(table: HandleTable, batch: seq<Disposition>) returns (clones: multiset<Object>)
      requires AllLive(table.slots, batch)
      ensures clones == Cloned(table.slots, batch)
    {
      clones := multiset{};
      for i := 0 to |batch|
        invariant clones == ClonedFirst(table.slots, batch, i)
      {
        if batch[i].operation.Duplicate? {
          var slot := table.ValidatedSlot(batch[i].handle);
          clones := clones + multiset{table.slots[slot.value].entry.value.obj};
        }
      }
    }

    /** Resolves a handle to a channel endpoint, checking one right. */
    method EndpointWithRight(t: nat, handle: u32, right: Right) returns (r: Result<Object, IpcError>)
      requires Valid() && t < |tables| && Linked(View())
      ensures r == EndpointFor(View(), t, handle, right)
      ensures r.Ok? ==> May(View(), t, handle, right, r.value)
      ensures r.Err? ==> Unusable(View(), t, handle, right, r.error)
    {
      var slot := tables[t].ValidatedSlot(handle);
      if slot.Err? { return Err(InvalidHandle); }
      var entry := tables[t].slots[slot.value].entry.value;
      assert SlotLinked(View(), View().tables[t][slot.value]);
      if right !in entry.rights { return Err(AccessDenied); }
      if !entry.obj.Endpoint? { return Err(WrongObjectType); }
      return Ok(entry.obj);
    }

    lemma PreparedIsLinked(t: nat, batch: seq<Disposition>)
      requires t < |tables| && Linked(View()) && BatchError(tables[t].slots, batch).None?
      ensures var prepared := Prepared(tables[t].slots, batch);
              forall i :: 0 <= i < |prepared| && prepared[i].obj.Endpoint? ==> IsEndpoint(View(), prepared[i].obj)
    {
      var slots := tables[t].slots;
      forall i | 0 <= i < |batch| && EntryOf(slots, batch[i].handle).obj.Endpoint?
        ensures IsEndpoint(View(), EntryOf(slots, batch[i].handle).obj)
      {
        assert SlotLinked(View(), View().tables[t][Lookup(slots, batch[i].handle).value]);
      }
    }

    /** Every check of a write, in order, without changing anything. */
    method CheckWrite(t: nat, channel: u32, bytes: seq<u8>, batch: seq<Disposition>)
      returns (r: Result<(Object, seq<HandleEntry>), IpcError>)
      requires Valid() && t < |tables| && Linked(View()) && Wf(View())
      ensures r.Err? && r.error != OutOfMemory ==> WriteError(View(), t, channel, bytes, batch) == Some(r.error)
      ensures r.Ok? ==> WriteError(View(), t, channel, bytes, batch).None?
      ensures r.Ok? ==> EndpointFor(View(), t, channel, WRITE) == Ok(r.value.0)
      ensures r.Ok? ==> r.value.1 == Prepared(tables[t].slots, batch)
      ensures |bytes| <= CHANNEL_MAX_BYTES && |batch| <= CHANNEL_MAX_HANDLES ==>
        forall error :: Unusable(View(), t, channel, WRITE, error) ==> r == Err(error)
    {
      if |bytes| > CHANNEL_MAX_BYTES || |batch| > CHANNEL_MAX_HANDLES { return Err(MessageTooLarge); }
      var endpoint := EndpointWithRight(t, channel, WRITE);
      if endpoint.Err? { return Err(endpoint.error); }
      var c, peer := endpoint.value.channel, 1 - endpoint.value.side;
      var prepared := PrepareBatch(tables[t], batch);
      if prepared.Err? { return Err(prepared.error); }
      if !channels[c].open[peer] { return Err(PeerClosed); }
      if |channels[c].queues[peer]| == CHANNEL_QUEUE_CAPACITY { return Err(ShouldWait); }
      PreparedIsLinked(t, batch);
      var cyclic := FindsCycleAlone(channels, prepared.value, c, View());
      if cyclic.Err? { return Err(OutOfMemory); }
      if cyclic.value { return Err(CyclicTransfer); }
      return Ok((endpoint.value, prepared.value));
    }

    /** The commit point: nothing here can fail. */
    method CommitWrite(t: nat, batch: seq<Disposition>, c: nat, side: nat, m: Message)
      requires Valid() && t < |tables| && BatchOk(tables[t].slots, batch) && c < |channels| && side < 2
      requires channels[c].open[side] && |channels[c].queues[side]| < CHANNEL_QUEUE_CAPACITY
      modifies this`channels, this`strong, tables[t]
      ensures Valid() && View() == AddStrong(
                SetChannel(SetTable(old(View()), t, TakeMoves(old(tables[t].slots), batch)), c,
                  Push(old(channels)[c], side, m)),
                Cloned(old(tables[t].slots), batch))
    {
      CountClones(t, batch);
      TakeFrom(t, batch);
      PushKeepsInv(channels[c], side, m);
      SetChannelAt(c, Push(channels[c], side, m));
    }

    /** Writes one message with an ordered mix of moves and duplicates. It succeeds exactly
        when no check fails (storage permitting); otherwise nothing has changed. */
    method ChannelWrite(t: nat, channel: u32, bytes: seq<u8>, batch: seq<Disposition>) returns (r: Result<(), IpcError>)
      requires Valid() && t < |tables| && Linked(View()) && Wf(View())
      modifies this`channels, this`strong, tables[t]
      ensures Valid()
      ensures r.Err? && r.error != OutOfMemory ==> WriteError(old(View()), t, channel, bytes, batch) == Some(r.error)
      ensures r.Err? ==> View() == old(View()) || (r.error == OutOfMemory && LostBuffer(old(View()), View()))
      ensures r.Ok? ==> WriteError(old(View()), t, channel, bytes, batch).None?
      ensures r.Ok? ==> View() == AfterWrite(old(View()), t, channel, bytes, batch)
      ensures r.Ok? ==> exists e ::
        MayWrite(old(View()), t, channel, bytes, batch, e) && Sent(old(View()), View(), t, e, bytes, batch)
      ensures |bytes| <= CHANNEL_MAX_BYTES && |batch| <= CHANNEL_MAX_HANDLES ==>
        forall error :: Unusable(old(View()), t, channel, WRITE, error) ==> r == Err(error) && View() == old(View())
    {
      ghost var w := View();
      var checked := CheckWrite(t, channel, bytes, batch);
      if checked.Err? { return Err(checked.error); }
      var c, peer := checked.value.0.channel, 1 - checked.value.0.side;
      var ok := TryAllocate();
      if !ok {
        if batch == [] { ForgetRecycled(c, peer); }
        return Err(OutOfMemory);
      }
      BatchErrorIsExact(w.tables[t], batch);
      CommitWrite(t, batch, c, peer, Message(bytes, checked.value.1));
      AcceptedIsSent(w, t, channel, bytes, batch);
      return Ok(());
    }

    method ForgetRecycled(c: nat, side: nat)
      requires Valid() && c < |channels| && side < 2 && Wf(View())
      modifies this`channels
      ensures Valid() && LostBuffer(old(View()), View())
    {
      ghost var w := View();
      SetChannelAt(c, LoseBuffer(channels[c], side));
      assert View() == Step(w, ForgetBuffer(c, side));
    }
  
    /** Every check of a read up to the table reservation, without changing anything. */
    method CheckRead(t: nat, channel: u32, byteRoom: nat, handleRoom: nat) returns (r: Result<Object, IpcError>)
      requires Valid() && t < |tables| && Linked(View()) && Wf(View())
      ensures r.Err? ==> ReadError(View(), t, channel, byteRoom, handleRoom) == Some(r.error)
      ensures r.Ok? ==> EndpointFor(View(), t, channel, READ) == r && May(View(), t, channel, READ, r.value)
      ensures forall error :: Unusable(View(), t, channel, READ, error) ==> r == Err(error)
      ensures r.Ok? ==> channels[r.value.channel].queues[r.value.side] != []
      ensures r.Ok? ==> ReadError(View(), t, channel, byteRoom, handleRoom) ==
                          RoomError(channels[r.value.channel].queues[r.value.side][0].handles, tables[t].slots)
    {
      var endpoint := EndpointWithRight(t, channel, READ);
      if endpoint.Err? { return endpoint; }
      var ch, side := channels[endpoint.value.channel], endpoint.value.side;
      if ch.queues[side] == [] { return Err(if ch.open[1 - side] then ShouldWait else PeerClosed); }
      var message := ch.queues[side][0];
      if byteRoom < |message.bytes| || handleRoom < |message.handles| {
        return Err(BufferTooSmall(|message.bytes|, |message.handles|));
      }
      return endpoint;
    }

    /** Reads one complete message. Short buffers, a full table or a lack of storage leave
        the message queued and everything else as it was. */
    method ChannelRead(t: nat, channel: u32, byteRoom: nat, handleRoom: nat)
      returns (r: Result<(seq<u8>, seq<u32>), IpcError>)
      requires Valid() && t < |tables| && Linked(View()) && Wf(View())
      modifies this`channels, tables[t]
      ensures Valid()
      ensures r.Err? ==> View() == old(View())
      ensures r.Err? && r.error != OutOfMemory ==>
        ReadError(old(View()), t, channel, byteRoom, handleRoom) == Some(r.error)
      ensures r.Ok? ==> ReadError(old(View()), t, channel, byteRoom, handleRoom).None?
      ensures r.Ok? ==> View() == AfterRead(old(View()), t, channel, byteRoom, handleRoom)
      ensures r.Ok? ==> tables[t].issued == old(tables[t].issued) + r.value.1
      ensures r.Ok? ==> exists e ::
        && MayRead(old(View()), t, channel, byteRoom, handleRoom, e)
        && r.value.0 == old(channels)[e.channel].queues[e.side][0].bytes
        && Taken(old(View()), View(), t, e, r.value.1)
      ensures forall error :: Unusable(old(View()), t, channel, READ, error) ==> r == Err(error)
    {
      ghost var w := View();
      var endpoint := CheckRead(t, channel, byteRoom, handleRoom);
      if endpoint.Err? { return Err(endpoint.error); }
      var c, side := endpoint.value.channel, endpoint.value.side;
      var message := channels[c].queues[side][0];
      var received := ReceiveInto(t, message.handles);
      if received.Err? { return Err(received.error); }
      assert tables[t].slots == View().tables[t] == Received(w.tables[t], message.handles);
      AcceptedIsTaken(w, t, channel, byteRoom, handleRoom, endpoint.value, received.value);
      PopKeepsInv(channels[c], side);
      SetChannelAt(c, Pop(channels[c], side));
      return Ok((message.bytes, received.value));
    }

    /** Moves and duplicates between two tables, all of the batch or none of it. */
    method TransferBatch(source: nat, destination: nat, batch: seq<Disposition>) returns (r: Result<seq<u32>, IpcError>)
      requires Valid() && source < |tables| && destination < |tables| && source != destination && Wf(View())
      modifies this`strong, tables[source], tables[destination]
      ensures Valid()
      ensures r.Err? ==> View() == old(View())
      ensures r.Err? && r.error != OutOfMemory ==>
        TransferError(old(View()), source, destination, batch) == Some(r.error)
      ensures r.Ok? ==> TransferError(old(View()), source, destination, batch).None?
      ensures r.Ok? ==> View() == AfterTransfer(old(View()), source, destination, batch)
      ensures r.Ok? ==> tables[destination].issued == old(tables[destination].issued) + r.value
      ensures r.Ok? ==> MayTransfer(old(View()), source, destination, batch)
      ensures r.Ok? ==> Transferred(old(View()), View(), source, destination, batch, r.value)
    {
      ghost var w := View();
      var prepared := PrepareBatch(tables[source], batch);
      if prepared.Err? { return Err(prepared.error); }
      BatchErrorIsExact(tables[source].slots, batch);
      r := ReceiveInto(destination, prepared.value);
      if r.Ok? {
        assert tables[destination].slots == View().tables[destination];
        AcceptedIsTransferred(w, source, destination, batch, r.value);
        ReleaseSource(source, batch);
        TransferEitherOrder(w, source, destination, batch);
      }
    }

    method ReleaseLast() returns (o: Object)
      requires Valid() && dropping != [] && NothingDying(View())
      modifies this`strong, this`dropping
      ensures Valid() && OnlyDying(View(), o)
      ensures View() == Step(old(View()), DropReference(|old(dropping)| - 1))
    {
      ghost var w := View();
      var k := |dropping| - 1;
      o := dropping[k].obj;
      strong := strong - multiset{o};
      dropping := dropping[..k];
      assert dropping == w.dropping[..k] + w.dropping[k + 1..];
      assert View().tables == w.tables;
      ValidIsWf();
      assert forall c: nat, side: nat :: Dying(View(), c, side) && Endpoint(c, side) != o ==> Dying(w, c, side);
    }

    /** Gives up one pending reference. */
    method ReleaseOne(ghost w: World, ghost ops: seq<Op>) returns (o: Object, ghost ops': seq<Op>)
      requires Valid() && dropping != [] && NothingDying(View()) && Cascaded(w, ops, View())
      modifies this`strong, this`dropping
      ensures Valid() && OnlyDying(View(), o) && Cascaded(w, ops', View()) && |ops'| == |ops| + 1
    {
      NextDrop(w, ops, View());
      ops' := ops + [DropReference(|dropping| - 1)];
      o := ReleaseLast();
    }

    /** Gives up one pending reference; the last one to an endpoint closes that side and
        inherits the capabilities of everything still queued for it. */
    method DropLast(ghost w: World, ghost ops: seq<Op>) returns (ghost ops': seq<Op>)
      requires Valid() && dropping != [] && NothingDying(View()) && Cascaded(w, ops, View())
      modifies this`channels, this`strong, this`dropping
      ensures Valid() && NothingDying(View()) && Cascaded(w, ops', View()) && |ops'| > |ops|
    {
      var o;
      o, ops' := ReleaseOne(w, ops);
      ops' := FinishIfDying(o, w, ops');
    }

    /** An endpoint whose last reference is gone closes and drops what it held. */
    method FinishIfDying(o: Object, ghost w: World, ghost ops: seq<Op>) returns (ghost ops': seq<Op>)
      requires Valid() && OnlyDying(View(), o)
      requires Cascaded(w, ops, View())
      modifies this`channels, this`dropping
      ensures Valid() && NothingDying(View())
      ensures Cascaded(w, ops', View()) && |ops'| >= |ops|
    {
      ops' := ops;
      if o.Endpoint? && o.channel < |channels| && o.side < 2 && channels[o.channel].open[o.side] && strong[o] == 0 {
        CascadeSnoc(w, ops, FinishDrop(o.channel, o.side));
        ops' := ops + [FinishDrop(o.channel, o.side)];
        FinishEndpoint(o);
      }
    }

    /** The endpoint's destructor. */
    method FinishEndpoint(o: Object)
      requires Valid() && OnlyDying(View(), o) && o.Endpoint? && Dying(View(), o.channel, o.side)
      modifies this`channels, this`dropping
      ensures Valid() && View() == Step(old(View()), FinishDrop(o.channel, o.side)) && NothingDying(View())
    {
      ghost var w := View();
      var discarded := Contents(channels[o.channel].queues[o.side]);
      CloseKeepsInv(channels[o.channel], o.side);
      channels := channels[o.channel := CloseSide(channels[o.channel], o.side)];
      dropping := dropping + discarded;
      assert View().tables == w.tables;
      assert View() == Step(w, FinishDrop(o.channel, o.side));
      ValidIsWf();
      assert forall c: nat, side: nat :: Dying(View(), c, side) ==> Dying(w, c, side);
    }

    /** Runs destructors until none is pending. It always stops, and what it leaves open is
        exactly what a handle table could reach when it started. */
    method DropAll()
      requires Valid() && Inv(View()) && NothingDying(View())
      modifies this`channels, this`strong, this`dropping
      ensures Valid() && Inv(View()) && Settled(View())
      ensures old(Wf(View())) && SameReach(old(View()), View())
      ensures forall o :: IsEndpoint(View(), o) ==> (IsOpen(View(), o) <==> Rooted(old(View()), o))
    {
      ghost var w := View();
      ghost var ops: seq<Op> := [];
      while dropping != []
        invariant Valid() && Cascaded(w, ops, View()) && NothingDying(View())
        decreases CascadeWork(w) - |ops|
      {
        RunKeepsInv(w, ops);
        ops := DropLast(w, ops);
        CascadeIsBounded(w, ops);
      }
      CascadeKeepsReach(w, ops);
      forall o { LiveIsReachable(View(), o); }
    }

    /** The source side of a transfer: counts the duplicates, removes the moves. */
    method ReleaseSource(source: nat, batch: seq<Disposition>)
      requires Valid() && source < |tables| && BatchOk(tables[source].slots, batch)
      modifies this`strong, tables[source]
      ensures Valid() && tables[source].issued == old(tables[source].issued)
      ensures View() == AddStrong(SetTable(old(View()), source, TakeMoves(old(tables[source].slots), batch)),
                                  Cloned(old(tables[source].slots), batch))
    {
      CountClones(source, batch);
      TakeFrom(source, batch);
    }
  }

  /** At most one endpoint awaits its destructor. */
  ghost predicate OnlyDying(w: World, o: Object)
  {
    Wf(w) && forall c: nat, side: nat :: Dying(w, c, side) ==> Endpoint(c, side) == o
  }

  ghost predicate NothingDying(w: World)
  {
    Wf(w) && forall c: nat, side: nat :: !Dying(w, c, side)
  }

  function RoomError(entries: seq<HandleEntry>, slots: seq<HandleSlot>): Option<IpcError>
    requires |slots| <= HANDLE_TABLE_CAPACITY
  {
    if |entries| > Available(slots) then Some(HandleTableFull) else None
  }
}
