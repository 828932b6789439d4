/** One channel: two bounded queues of datagrams, open flags, recycled message buffers,
    and the histories against which delivery is judged. */
module Channels {
  import opened Objects
  import opened Refs
  import opened Totals

  const CHANNEL_QUEUE_CAPACITY: nat := 64
  const CHANNEL_MAX_BYTES: nat := 16 * 1024
  const CHANNEL_MAX_HANDLES: nat := 16

  datatype Message = Message(bytes: seq<u8>, handles: seq<HandleEntry>)

  datatype Signal = READABLE | WRITABLE | PEER_CLOSED | SIGNALED | TERMINATED

  /** Index `s` of each field belongs to side `s`: `queues[s]` holds what side `s` will
      read, `free[s]` counts its recycled buffers, and `sent[s]`/`received[s]` record
      every message ever queued for and read by that side. */
  datatype Channel = Channel(
    open: seq<bool>,
    queues: seq<seq<Message>>,
    free: seq<nat>,
    sent: seq<seq<Message>>,
    received: seq<seq<Message>>)

  predicate Shape(ch: Channel)
  {
    |ch.open| == 2 && |ch.queues| == 2 && |ch.free| == 2 && |ch.sent| == 2 && |ch.received| == 2
  }

  const NEW_CHANNEL := Channel([true, true], [[], []], [0, 0], [[], []], [[], []])

  function HandleFree(queue: seq<Message>): nat
  {
    if queue == [] then 0 else
      (if queue[0].handles == [] then 1 else 0) + HandleFree(queue[1..])
  }

  predicate SideInv(ch: Channel, s: nat)
    requires Shape(ch) && s < 2
  {
    && |ch.queues[s]| <= CHANNEL_QUEUE_CAPACITY
    && ch.free[s] + HandleFree(ch.queues[s]) <= CHANNEL_QUEUE_CAPACITY
    && (ch.open[s] ==> ch.sent[s] == ch.received[s] + ch.queues[s])
    && (!ch.open[s] ==> ch.queues[s] == [] && ch.received[s] <= ch.sent[s])
  }

  /** A direction is a bounded FIFO: what was read, followed by what is queued, is
      exactly what was sent; a closed side holds nothing; recycled buffers never
      outgrow the room reserved for them. */
  predicate ChannelInv(ch: Channel)
  {
    Shape(ch) && SideInv(ch, 0) && SideInv(ch, 1)
  }

  function Push(ch: Channel, s: nat, m: Message): Channel
    requires Shape(ch) && s < 2
  {
    ch.(queues := ch.queues[s := ch.queues[s] + [m]],
        sent := ch.sent[s := ch.sent[s] + [m]],
        free := if m.handles == [] && ch.free[s] > 0 then ch.free[s := ch.free[s] - 1] else ch.free)
  }

  function Pop(ch: Channel, s: nat): Channel
    requires Shape(ch) && s < 2 && ch.queues[s] != []
  {
    var m := ch.queues[s][0];
    ch.(queues := ch.queues[s := ch.queues[s][1..]],
        received := ch.received[s := ch.received[s] + [m]],
        free := if m.handles == [] then ch.free[s := ch.free[s] + 1] else ch.free)
  }

  function CloseSide(ch: Channel, s: nat): Channel
    requires Shape(ch) && s < 2
  {
    ch.(open := ch.open[s := false], queues := ch.queues[s := []])
  }

  /** A recycled buffer that could not be enlarged is freed, not returned. */
  function LoseBuffer(ch: Channel, s: nat): Channel
    requires Shape(ch) && s < 2
  {
    if ch.free[s] > 0 then ch.(free := ch.free[s := ch.free[s] - 1]) else ch
  }

  lemma {:induction false} HandleFreeSnoc(queue: seq<Message>, m: Message)
    ensures HandleFree(queue + [m]) == HandleFree(queue) + (if m.handles == [] then 1 else 0)
    ensures HandleFree(queue) <= |queue|
  {
    if queue != [] {
      assert (queue + [m])[1..] == queue[1..] + [m];
      HandleFreeSnoc(queue[1..], m);
    }
  }

  lemma PushKeepsInv(ch: Channel, s: nat, m: Message)
    requires ChannelInv(ch) && s < 2 && ch.open[s] && |ch.queues[s]| < CHANNEL_QUEUE_CAPACITY
    ensures ChannelInv(Push(ch, s, m))
  {
    HandleFreeSnoc(ch.queues[s], m);
    assert ch.received[s] + (ch.queues[s] + [m]) == ch.sent[s] + [m];
  }

  lemma PopKeepsInv(ch: Channel, s: nat)
    requires ChannelInv(ch) && s < 2 && ch.queues[s] != []
    ensures ChannelInv(Pop(ch, s))
  {
    var q := ch.queues[s];
    assert ch.received[s] + q == (ch.received[s] + [q[0]]) + q[1..];
  }

  lemma CloseKeepsInv(ch: Channel, s: nat)
    requires ChannelInv(ch) && s < 2
    ensures ChannelInv(CloseSide(ch, s))
  {
    assert ch.open[s] ==> ch.received[s] <= ch.sent[s];
  }

  /** Whatever a side reads next is the oldest message sent to it and not yet read. */
  lemma DeliveryIsFifo(ch: Channel, s: nat)
    requires ChannelInv(ch) && s < 2 && ch.queues[s] != []
    ensures |ch.received[s]| < |ch.sent[s]| && ch.queues[s][0] == ch.sent[s][|ch.received[s]|]
    ensures Pop(ch, s).received[s] == ch.sent[s][..|ch.received[s]| + 1]
  {
    assert ch.open[s];
    assert ch.sent[s][|ch.received[s]|] == ch.queues[s][0];
  }

  // ---------------------------------------------------------------- signals

  function ChannelSignals(ch: Channel, s: nat): set<Signal>
    requires Shape(ch) && s < 2
  {
    (if ch.queues[s] != [] then {READABLE} else {})
    + (if !ch.open[1 - s] then {PEER_CLOSED}
       else if |ch.queues[1 - s]| < CHANNEL_QUEUE_CAPACITY then {WRITABLE} else {})
  }

  /** Every change a channel operation makes can only raise signals on the sides the
      operation then notifies: the peer for a write or a read, both for a close. */
  lemma OnlyNotifiedSidesAreRaised(ch: Channel, s: nat, m: Message)
    requires Shape(ch) && s < 2
    ensures ChannelSignals(Push(ch, s, m), 1 - s) <= ChannelSignals(ch, 1 - s)
    ensures ch.queues[s] != [] ==> ChannelSignals(Pop(ch, s), s) <= ChannelSignals(ch, s)
    ensures forall side :: 0 <= side < 2 ==> ChannelSignals(LoseBuffer(ch, s), side) == ChannelSignals(ch, side)
  {
  }

  // ----------------------------------------------------------------- counts

  /** All capabilities carried by a queue, in order. */
  function Contents(queue: seq<Message>): seq<HandleEntry>
  {
    if queue == [] then [] else queue[0].handles + Contents(queue[1..])
  }

  lemma {:induction false} ContentsSnoc(queue: seq<Message>, m: Message)
    ensures Contents(queue + [m]) == Contents(queue) + m.handles
  {
    if queue == [] {
      assert [m][1..] == [];
    } else {
      assert (queue + [m])[1..] == queue[1..] + [m];
      ContentsSnoc(queue[1..], m);
    }
  }

  /** All capabilities carried by a channel, in either direction. */
  function Entries(ch: Channel): seq<HandleEntry>
  {
    if Shape(ch) then Contents(ch.queues[0]) + Contents(ch.queues[1]) else []
  }

  ghost function ChannelCount(ch: Channel, o: Object): nat { EntriesCount(Entries(ch), o) }

  lemma ChannelCountSplits(ch: Channel, o: Object)
    requires Shape(ch)
    ensures ChannelCount(ch, o) == EntriesCount(Contents(ch.queues[0]), o) + EntriesCount(Contents(ch.queues[1]), o)
  {
    TotalConcat(Contents(ch.queues[0]), Contents(ch.queues[1]), EntryCount(o));
  }

  lemma PushCount(ch: Channel, s: nat, m: Message, o: Object)
    requires Shape(ch) && s < 2
    ensures ChannelCount(Push(ch, s, m), o) == ChannelCount(ch, o) + EntriesCount(m.handles, o)
  {
    ChannelCountSplits(ch, o);
    ChannelCountSplits(Push(ch, s, m), o);
    ContentsSnoc(ch.queues[s], m);
    TotalConcat(Contents(ch.queues[s]), m.handles, EntryCount(o));
  }

  lemma PopCount(ch: Channel, s: nat, o: Object)
    requires Shape(ch) && s < 2 && ch.queues[s] != []
    ensures ChannelCount(Pop(ch, s), o) + EntriesCount(ch.queues[s][0].handles, o) == ChannelCount(ch, o)
  {
    ChannelCountSplits(ch, o);
    ChannelCountSplits(Pop(ch, s), o);
    TotalConcat(ch.queues[s][0].handles, Contents(ch.queues[s][1..]), EntryCount(o));
  }

  lemma CloseCount(ch: Channel, s: nat, o: Object)
    requires Shape(ch) && s < 2
    ensures ChannelCount(CloseSide(ch, s), o) + EntriesCount(Contents(ch.queues[s]), o) == ChannelCount(ch, o)
  {
    ChannelCountSplits(ch, o);
    ChannelCountSplits(CloseSide(ch, s), o);
  }

  /** Which capabilities each operation leaves in the channel. */
  lemma EntriesAfter(ch: Channel, s: nat, m: Message)
    requires Shape(ch) && s < 2
    ensures forall e :: e in Entries(Push(ch, s, m)) <==> e in Entries(ch) || e in m.handles
    ensures forall e :: e in Entries(CloseSide(ch, s)) ==> e in Entries(ch)
    ensures forall e :: e in Contents(ch.queues[s]) ==> e in Entries(ch)
    ensures ch.queues[s] != [] ==>
      forall e :: e in Entries(Pop(ch, s)) || e in ch.queues[s][0].handles <==> e in Entries(ch)
  {
    ContentsSnoc(ch.queues[s], m);
  }
}
