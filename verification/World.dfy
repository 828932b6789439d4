/** The whole IPC state as a value, and every operation on it as one atomic step. */
module World {
  import opened Objects
  import opened Handles
  import opened Refs
  import opened Totals
  import opened Transfers
  import opened Channels
  import opened ChannelGraph

  /** `strong` is the `Arc` strong count of every object, `granted` the rights each object
      was first installed with, and `dropping` the references whose owners have let go
      of them but whose destructors have not run yet. */
  datatype World = World(
    tables: seq<seq<HandleSlot>>,
    channels: seq<Channel>,
    strong: multiset<Object>,
    granted: map<Object, Rights>,
    dropping: seq<HandleEntry>)

  const INITIAL := World([], [], multiset{}, map[], [])

  datatype Op =
    | NewTable
    | ExtendTable(t: nat, count: nat)
    | CreateObject(t: nat, id: nat, rights: Rights)
    | CreateChannel(left: nat, right: nat)
    | WriteChannel(t: nat, channel: u32, bytes: seq<u8>, batch: seq<Disposition>)
    | ForgetBuffer(c: nat, side: nat)
    | ReadChannel(t: nat, channel: u32, byteRoom: nat, handleRoom: nat)
    | CloseHandle(t: nat, handle: u32)
    | CopyHandle(t: nat, handle: u32, rights: Rights)
    | TransferHandles(source: nat, destination: nat, batch: seq<Disposition>)
    | DropTable(t: nat)
    | DropReference(k: nat)
    | FinishDrop(c: nat, side: nat)

  ghost predicate Wf(w: World)
  {
    && (forall t :: 0 <= t < |w.tables| ==> TableInv(w.tables[t]))
    && (forall c :: 0 <= c < |w.channels| ==> ChannelInv(w.channels[c]))
  }

  predicate IsEndpoint(w: World, o: Object)
  {
    o.Endpoint? && o.channel < |w.channels| && o.side < 2
  }

  /** The endpoint a handle names, or the error a caller needing `right` receives. */
  function EndpointFor(w: World, t: nat, handle: u32, right: Right): Result<Object, IpcError>
    requires t < |w.tables|
  {
    if Lookup(w.tables[t], handle).None? then Err(InvalidHandle)
    else
      var entry := EntryOf(w.tables[t], handle);
      if right !in entry.rights then Err(AccessDenied)
      else if !IsEndpoint(w, entry.obj) then Err(WrongObjectType)
      else Ok(entry.obj)
  }

  ghost predicate ClosesCycle(chs: seq<Channel>, entries: seq<HandleEntry>, c: nat)
  {
    exists i :: 0 <= i < |entries| && entries[i].obj.Endpoint? && Reaches(chs, entries[i].obj.channel, c)
  }

  /** The first error a write meets before it searches for cycles, in the order of the code. */
  ghost function EarlyWriteError(
    w: World, t: nat, channel: u32, bytes: seq<u8>, batch: seq<Disposition>): Option<IpcError>
    requires Wf(w) && t < |w.tables|
  {
    var slots := w.tables[t];
    if |bytes| > CHANNEL_MAX_BYTES || |batch| > CHANNEL_MAX_HANDLES then Some(MessageTooLarge)
    else if EndpointFor(w, t, channel, WRITE).Err? then Some(EndpointFor(w, t, channel, WRITE).error)
    else if BatchError(slots, batch).Some? then BatchError(slots, batch)
    else
      var endpoint := EndpointFor(w, t, channel, WRITE).value;
      var ch := w.channels[endpoint.channel];
      if !ch.open[1 - endpoint.side] then Some(PeerClosed)
      else if |ch.queues[1 - endpoint.side]| == CHANNEL_QUEUE_CAPACITY then Some(ShouldWait)
      else None
  }

  /** The first error a write meets when nothing else happens meanwhile. */
  ghost function WriteError(w: World, t: nat, channel: u32, bytes: seq<u8>, batch: seq<Disposition>): Option<IpcError>
    requires Wf(w) && t < |w.tables|
  {
    var early := EarlyWriteError(w, t, channel, bytes, batch);
    if early.Some? then early
    else if ClosesCycle(w.channels, Prepared(w.tables[t], batch), EndpointFor(w, t, channel, WRITE).value.channel)
    then Some(CyclicTransfer)
    else None
  }

  ghost function ReadError(w: World, t: nat, channel: u32, byteRoom: nat, handleRoom: nat): Option<IpcError>
    requires Wf(w) && t < |w.tables|
  {
    if EndpointFor(w, t, channel, READ).Err? then Some(EndpointFor(w, t, channel, READ).error)
    else
      var endpoint := EndpointFor(w, t, channel, READ).value;
      var ch := w.channels[endpoint.channel];
      var queue := ch.queues[endpoint.side];
      if queue == [] then Some(if ch.open[1 - endpoint.side] then ShouldWait else PeerClosed)
      else if byteRoom < |queue[0].bytes| || handleRoom < |queue[0].handles|
      then Some(BufferTooSmall(|queue[0].bytes|, |queue[0].handles|))
      else if |queue[0].handles| > Available(w.tables[t]) then Some(HandleTableFull)
      else None
  }

  function CopyError(w: World, t: nat, handle: u32, rights: Rights): Option<IpcError>
    requires t < |w.tables| && TableInv(w.tables[t])
  {
    if Lookup(w.tables[t], handle).None? then Some(InvalidHandle)
    else
      var entry := EntryOf(w.tables[t], handle);
      if DUPLICATE !in entry.rights then Some(AccessDenied)
      else if !(rights <= entry.rights) then Some(InvalidRights)
      else if Available(w.tables[t]) == 0 then Some(HandleTableFull)
      else None
  }

  function TransferError(w: World, source: nat, destination: nat, batch: seq<Disposition>): Option<IpcError>
    requires source < |w.tables| && destination < |w.tables| && TableInv(w.tables[destination])
  {
    if BatchError(w.tables[source], batch).Some? then BatchError(w.tables[source], batch)
    else if |batch| > Available(w.tables[destination]) then Some(HandleTableFull)
    else None
  }

  /** Every slot retired: what is left of a dropped table, so that nothing is ever installed there. */
  function RetiredTable(): seq<HandleSlot>
  {
    seq(HANDLE_TABLE_CAPACITY, _ => HandleSlot(0, None))
  }

  function TableEntries(slots: seq<HandleSlot>): seq<HandleEntry>
  {
    if slots == [] then [] else
      (if slots[0].entry.Some? then [slots[0].entry.value] else []) + TableEntries(slots[1..])
  }

  // ---------------------------------------------------- effects of success

  function SetTable(w: World, t: nat, slots: seq<HandleSlot>): World
    requires t < |w.tables|
  {
    World(w.tables[t := slots], w.channels, w.strong, w.granted, w.dropping)
  }

  function SetChannel(w: World, c: nat, ch: Channel): World
    requires c < |w.channels|
  {
    World(w.tables, w.channels[c := ch], w.strong, w.granted, w.dropping)
  }

  function AddStrong(w: World, more: multiset<Object>): World
  {
    World(w.tables, w.channels, w.strong + more, w.granted, w.dropping)
  }

  function StartDropping(w: World, entries: seq<HandleEntry>): World
  {
    World(w.tables, w.channels, w.strong, w.granted, w.dropping + entries)
  }

  /** Accounts for a new object and the one reference about to be installed. */
  function Grant(w: World, e: HandleEntry): World
  {
    World(w.tables, w.channels, w.strong + multiset{e.obj}, w.granted[e.obj := e.rights], w.dropping)
  }

  function AddChannel(w: World): World
  {
    World(w.tables, w.channels + [NEW_CHANNEL], w.strong, w.granted, w.dropping)
  }

  function Introduce(w: World, t: nat, e: HandleEntry): World
    requires t < |w.tables| && TableInv(w.tables[t]) && Available(w.tables[t]) >= 1
  {
    SetTable(Grant(w, e), t, Received(w.tables[t], [e]))
  }

  function NewEndpoint(w: World, side: nat): HandleEntry
  {
    HandleEntry(Endpoint(|w.channels|, side), CHANNEL_DEFAULT_RIGHTS)
  }

  /** Room for both endpoints: two slots when they share a table, one in each otherwise. */
  predicate RoomForChannel(w: World, left: nat, right: nat)
    requires left < |w.tables| && right < |w.tables| && TableInv(w.tables[left]) && TableInv(w.tables[right])
  {
    if left == right then Available(w.tables[left]) >= 2
    else Available(w.tables[left]) >= 1 && Available(w.tables[right]) >= 1
  }

  /** Installs `a` and `b` in the two tables, in one reservation when they are the same table. */
  function PlacePair(w: World, left: nat, right: nat, a: HandleEntry, b: HandleEntry): World
    requires Wf(w) && left < |w.tables| && right < |w.tables| && RoomForChannel(w, left, right)
  {
    if left == right then SetTable(w, left, Received(w.tables[left], [a, b]))
    else SetTable(SetTable(w, left, Received(w.tables[left], [a])), right, Received(w.tables[right], [b]))
  }

  function AfterCreateChannel(w: World, left: nat, right: nat): World
    requires Wf(w) && left < |w.tables| && right < |w.tables| && RoomForChannel(w, left, right)
  {
    var a := NewEndpoint(w, 0);
    var b := NewEndpoint(w, 1);
    PlacePair(Grant(Grant(AddChannel(w), a), b), left, right, a, b)
  }

  ghost function AfterWrite(w: World, t: nat, channel: u32, bytes: seq<u8>, batch: seq<Disposition>): World
    requires Wf(w) && t < |w.tables| && WriteError(w, t, channel, bytes, batch).None?
  {
    var slots := w.tables[t];
    var e := EndpointFor(w, t, channel, WRITE).value;
    var ch := Push(w.channels[e.channel], 1 - e.side, Message(bytes, Prepared(slots, batch)));
    AddStrong(SetChannel(SetTable(w, t, TakeMoves(slots, batch)), e.channel, ch), Cloned(slots, batch))
  }

  ghost function AfterRead(w: World, t: nat, channel: u32, byteRoom: nat, handleRoom: nat): World
    requires Wf(w) && t < |w.tables| && ReadError(w, t, channel, byteRoom, handleRoom).None?
  {
    var e := EndpointFor(w, t, channel, READ).value;
    var ch := w.channels[e.channel];
    SetChannel(SetTable(w, t, Received(w.tables[t], ch.queues[e.side][0].handles)), e.channel, Pop(ch, e.side))
  }

  function AfterClose(w: World, t: nat, handle: u32): World
    requires t < |w.tables| && Lookup(w.tables[t], handle).Some?
  {
    var slots := w.tables[t];
    var i := Lookup(slots, handle).value;
    StartDropping(SetTable(w, t, slots[i := Vacate(slots[i])]), [EntryOf(slots, handle)])
  }

  function AfterCopy(w: World, t: nat, handle: u32, rights: Rights): World
    requires Wf(w) && t < |w.tables| && CopyError(w, t, handle, rights).None?
  {
    var o := EntryOf(w.tables[t], handle).obj;
    AddStrong(SetTable(w, t, Received(w.tables[t], [HandleEntry(o, rights)])), multiset{o})
  }

  ghost function AfterTransfer(w: World, source: nat, destination: nat, batch: seq<Disposition>): World
    requires Wf(w) && source < |w.tables| && destination < |w.tables| && source != destination
    requires TransferError(w, source, destination, batch).None?
  {
    var slots := w.tables[source];
    var received := Received(w.tables[destination], Prepared(slots, batch));
    AddStrong(SetTable(SetTable(w, source, TakeMoves(slots, batch)), destination, received), Cloned(slots, batch))
  }

  function AfterDropReference(w: World, k: nat): World
    requires k < |w.dropping|
  {
    World(w.tables, w.channels, w.strong - multiset{w.dropping[k].obj}, w.granted,
          w.dropping[..k] + w.dropping[k + 1..])
  }

  /** An endpoint whose count has reached zero and whose destructor has not run yet. */
  predicate Dying(w: World, c: nat, side: nat)
    requires c < |w.channels| ==> Shape(w.channels[c])
  {
    c < |w.channels| && side < 2 && w.channels[c].open[side] && w.strong[Endpoint(c, side)] == 0
  }

  function AfterFinishDrop(w: World, c: nat, side: nat): World
    requires c < |w.channels| && Shape(w.channels[c]) && side < 2
  {
    StartDropping(SetChannel(w, c, CloseSide(w.channels[c], side)), Contents(w.channels[c].queues[side]))
  }

  function AddTable(w: World): World
  {
    World(w.tables + [[]], w.channels, w.strong, w.granted, w.dropping)
  }

  /** The effect of one operation; an operation that fails or does not apply changes nothing. */
  ghost function Step(w: World, op: Op): World
    requires Wf(w)
  {
    match op
    case NewTable => AddTable(w)
    case ExtendTable(t, count) =>
      if t < |w.tables| && count <= Available(w.tables[t]) then SetTable(w, t, Grown(w.tables[t], count)) else w
    case CreateObject(t, id, rights) =>
      if t < |w.tables| && Available(w.tables[t]) >= 1 && Other(id) !in w.granted
      then Introduce(w, t, HandleEntry(Other(id), rights)) else w
    case CreateChannel(left, right) =>
      if left < |w.tables| && right < |w.tables| && RoomForChannel(w, left, right)
      then AfterCreateChannel(w, left, right) else w
    case WriteChannel(t, channel, bytes, batch) =>
      if t < |w.tables| && WriteError(w, t, channel, bytes, batch).None?
      then AfterWrite(w, t, channel, bytes, batch) else w
    case ForgetBuffer(c, side) =>
      if c < |w.channels| && side < 2 then SetChannel(w, c, LoseBuffer(w.channels[c], side)) else w
    case ReadChannel(t, channel, byteRoom, handleRoom) =>
      if t < |w.tables| && ReadError(w, t, channel, byteRoom, handleRoom).None?
      then AfterRead(w, t, channel, byteRoom, handleRoom) else w
    case CloseHandle(t, handle) =>
      if t < |w.tables| && Lookup(w.tables[t], handle).Some? then AfterClose(w, t, handle) else w
    case CopyHandle(t, handle, rights) =>
      if t < |w.tables| && CopyError(w, t, handle, rights).None? then AfterCopy(w, t, handle, rights) else w
    case TransferHandles(source, destination, batch) =>
      if source < |w.tables| && destination < |w.tables| && source != destination
         && TransferError(w, source, destination, batch).None?
      then AfterTransfer(w, source, destination, batch) else w
    case DropTable(t) =>
      if t < |w.tables| then StartDropping(SetTable(w, t, RetiredTable()), TableEntries(w.tables[t])) else w
    case DropReference(k) =>
      if k < |w.dropping| then AfterDropReference(w, k) else w
    case FinishDrop(c, side) =>
      if Dying(w, c, side) then AfterFinishDrop(w, c, side) else w
  }

  // -------------------------------------------------------------- invariant

  ghost function TableCounter(o: Object): seq<HandleSlot> -> nat
  {
    (slots: seq<HandleSlot>) => TableCount(slots, o)
  }

  ghost function ChannelCounter(o: Object): Channel -> nat
  {
    (ch: Channel) => ChannelCount(ch, o)
  }

  /** All references to an object, wherever they are. */
  ghost function References(w: World, o: Object): nat
  {
    Total(w.tables, TableCounter(o)) + Total(w.channels, ChannelCounter(o)) + EntriesCount(w.dropping, o)
  }

  ghost predicate Counted(w: World)
  {
    forall o: Object :: References(w, o) == w.strong[o]
  }

  /** A referenced endpoint is open, and only created objects are referenced. */
  ghost predicate Alive(w: World)
    requires Wf(w)
  {
    && (forall o :: o in w.strong ==> o in w.granted)
    && (forall o :: o in w.granted && o.Endpoint? ==> IsEndpoint(w, o))
    && (forall o :: IsEndpoint(w, o) && o in w.strong ==> w.channels[o.channel].open[o.side])
  }

  predicate EntryOk(granted: map<Object, Rights>, e: HandleEntry)
  {
    e.obj in granted && e.rights <= granted[e.obj]
  }

  ghost predicate AllOk(granted: map<Object, Rights>, entries: seq<HandleEntry>)
  {
    forall e :: e in entries ==> EntryOk(granted, e)
  }

  ghost predicate TableOk(granted: map<Object, Rights>, slots: seq<HandleSlot>)
  {
    forall i :: 0 <= i < |slots| && slots[i].entry.Some? ==> EntryOk(granted, slots[i].entry.value)
  }

  /** Rights only ever shrink, and what may not be duplicated has at most one reference. */
  ghost predicate Attenuated(w: World)
  {
    && (forall t :: 0 <= t < |w.tables| ==> TableOk(w.granted, w.tables[t]))
    && (forall c :: 0 <= c < |w.channels| ==> AllOk(w.granted, Entries(w.channels[c])))
    && AllOk(w.granted, w.dropping)
    && (forall o :: o in w.granted && DUPLICATE !in w.granted[o] ==> w.strong[o] <= 1)
  }

  ghost predicate Sound(w: World)
  {
    Wf(w) && Alive(w) && Acyclic(w.channels) && Attenuated(w)
  }

  ghost predicate Inv(w: World)
  {
    Sound(w) && Counted(w)
  }

  predicate SlotLinked(w: World, slot: HandleSlot)
  {
    slot.entry.Some? && slot.entry.value.obj.Endpoint? ==> IsEndpoint(w, slot.entry.value.obj)
  }

  /** Every endpoint anywhere belongs to a channel that exists. */
  ghost predicate Linked(w: World)
  {
    && (forall c, e :: 0 <= c < |w.channels| && e in Entries(w.channels[c]) && e.obj.Endpoint? ==> IsEndpoint(w, e.obj))
    && (forall t, i :: 0 <= t < |w.tables| && 0 <= i < |w.tables[t]| ==> SlotLinked(w, w.tables[t][i]))
  }

  lemma InvIsLinked(w: World)
    requires Inv(w)
    ensures Linked(w)
  {
    forall t, i | 0 <= t < |w.tables| && 0 <= i < |w.tables[t]| ensures SlotLinked(w, w.tables[t][i]) {
      assert TableOk(w.granted, w.tables[t]);
    }
  }

  lemma CarriedIsKnown(w: World, c: nat, d: nat)
    requires Linked(w) && Carries(w.channels, c, d)
    ensures d < |w.channels|
  {
    var k :| 0 <= k < |Entries(w.channels[c])| && Leads(Entries(w.channels[c])[k], d);
    assert Entries(w.channels[c])[k] in Entries(w.channels[c]);
  }
}
