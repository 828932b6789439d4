/** Writes that carry handles, while other threads work: the search for cycles takes one
    channel lock at a time, and between two of them other operations run. */
module Interleaving {
  import opened Objects
  import opened Transfers
  import opened Channels
  import opened ChannelGraph
  import opened World
  import opened WorldInvariant
  import opened Runs

  // ------------------------------------------------------- who may add edges

  /** Only a write that carries handles takes the graph lock. */
  predicate TakesGraphLock(op: Op) { op.WriteChannel? && op.batch != [] }

  lemma PopSubgraph(chs: seq<Channel>, c: nat, side: nat)
    requires c < |chs| && Shape(chs[c]) && side < 2 && chs[c].queues[side] != []
    ensures Subgraph(chs[c := Pop(chs[c], side)], chs)
  {
    EntriesAfter(chs[c], side, Message([], []));
    FewerEntriesSubgraph(chs, c, Pop(chs[c], side));
  }

  lemma PlainPushSubgraph(chs: seq<Channel>, c: nat, side: nat, m: Message)
    requires c < |chs| && Shape(chs[c]) && side < 2 && m.handles == []
    ensures Subgraph(chs[c := Push(chs[c], side, m)], chs)
  {
    EntriesAfter(chs[c], side, m);
    FewerEntriesSubgraph(chs, c, Push(chs[c], side, m));
  }

  lemma CloseSubgraph(chs: seq<Channel>, c: nat, side: nat)
    requires c < |chs| && Shape(chs[c]) && side < 2
    ensures Subgraph(chs[c := CloseSide(chs[c], side)], chs) && Subgraph(chs[c := LoseBuffer(chs[c], side)], chs)
  {
    EntriesAfter(chs[c], side, Message([], []));
    FewerEntriesSubgraph(chs, c, CloseSide(chs[c], side));
    assert Entries(LoseBuffer(chs[c], side)) == Entries(chs[c]);
    FewerEntriesSubgraph(chs, c, LoseBuffer(chs[c], side));
  }

  lemma NewChannelSubgraph(chs: seq<Channel>)
    ensures Subgraph(chs + [NEW_CHANNEL], chs)
  {
    assert Entries(NEW_CHANNEL) == [];
  }

  lemma PlainWriteSubgraph(w: World, t: nat, channel: u32, bytes: seq<u8>)
    requires Wf(w) && t < |w.tables| && WriteError(w, t, channel, bytes, []).None?
    ensures Subgraph(AfterWrite(w, t, channel, bytes, []).channels, w.channels)
    ensures |AfterWrite(w, t, channel, bytes, []).channels| == |w.channels|
  {
    var e := WriteAccepted(w, t, channel, bytes, []);
    PlainPushSubgraph(w.channels, e.channel, 1 - e.side, Message(bytes, Prepared(w.tables[t], [])));
  }

  lemma ReadSubgraph(w: World, t: nat, channel: u32, byteRoom: nat, handleRoom: nat)
    requires Wf(w) && t < |w.tables| && ReadError(w, t, channel, byteRoom, handleRoom).None?
    ensures Subgraph(AfterRead(w, t, channel, byteRoom, handleRoom).channels, w.channels)
    ensures |AfterRead(w, t, channel, byteRoom, handleRoom).channels| == |w.channels|
  {
    var e := EndpointFor(w, t, channel, READ).value;
    PopSubgraph(w.channels, e.channel, e.side);
  }

  /** Operations that touch the queues of at most one channel, or make a new one. */
  predicate TouchesChannels(op: Op)
  {
    op.CreateChannel? || op.WriteChannel? || op.ReadChannel? || op.FinishDrop? || op.ForgetBuffer?
  }

  lemma OthersKeepChannels(w: World, op: Op)
    requires Wf(w) && !TouchesChannels(op)
    ensures Step(w, op).channels == w.channels
  {
  }

  lemma MessagesOnlyLeave(w: World, op: Op)
    requires Wf(w) && !TakesGraphLock(op) && (op.WriteChannel? || op.ReadChannel?)
    ensures Subgraph(Step(w, op).channels, w.channels) && |w.channels| <= |Step(w, op).channels|
  {
    if Step(w, op).channels != w.channels {
      match op
      case WriteChannel(t, channel, bytes, batch) => PlainWriteSubgraph(w, t, channel, bytes);
      case ReadChannel(t, channel, byteRoom, handleRoom) => ReadSubgraph(w, t, channel, byteRoom, handleRoom);
    }
  }

  lemma CreateAddsOne(w: World, left: nat, right: nat)
    requires Wf(w)
    ensures Step(w, CreateChannel(left, right)).channels in {w.channels, w.channels + [NEW_CHANNEL]}
  {
  }

  lemma SideChanges(w: World, c: nat, side: nat)
    requires Wf(w)
    ensures Step(w, FinishDrop(c, side)).channels == w.channels ||
      (c < |w.channels| && side < 2 &&
       Step(w, FinishDrop(c, side)).channels == w.channels[c := CloseSide(w.channels[c], side)])
    ensures Step(w, ForgetBuffer(c, side)).channels == w.channels ||
      (c < |w.channels| && side < 2 &&
       Step(w, ForgetBuffer(c, side)).channels == w.channels[c := LoseBuffer(w.channels[c], side)])
  {
  }

  lemma ChannelsOnlyClose(w: World, op: Op)
    requires Wf(w) && (op.CreateChannel? || op.FinishDrop? || op.ForgetBuffer?)
    ensures Subgraph(Step(w, op).channels, w.channels) && |w.channels| <= |Step(w, op).channels|
  {
    if op.CreateChannel? {
      CreateAddsOne(w, op.left, op.right);
      NewChannelSubgraph(w.channels);
    } else {
      SideChanges(w, op.c, op.side);
      if op.c < |w.channels| && op.side < 2 { CloseSubgraph(w.channels, op.c, op.side); }
    }
  }

  /** Everything else only ever removes edges: reads and endpoint teardown take queued
      handles away, byte-only writes queue none, and the rest touches no queue. */
  lemma OnlyGraphWritesAddEdges(w: World, op: Op)
    requires Wf(w) && !TakesGraphLock(op)
    ensures Subgraph(Step(w, op).channels, w.channels) && |w.channels| <= |Step(w, op).channels|
  {
    if !TouchesChannels(op) {
      OthersKeepChannels(w, op);
    } else if op.WriteChannel? || op.ReadChannel? {
      MessagesOnlyLeave(w, op);
    } else {
      ChannelsOnlyClose(w, op);
    }
  }

  // ---------------------------------------------------- the search in steps

  /** How far the search for the handles of one message has come: `started` of them are on
      the worklist or done. */
  datatype Search = Search(started: nat, visited: seq<nat>, pending: seq<nat>)

  const NO_SEARCH := Search(0, [], [])

  /** The channels of queued endpoints, in queue order. */
  function Outgoing(entries: seq<HandleEntry>): seq<nat>
  {
    if entries == [] then []
    else
      var n := |entries| - 1;
      Outgoing(entries[..n]) + if entries[n].obj.Endpoint? then [entries[n].obj.channel] else []
  }

  predicate Finished(cargo: seq<HandleEntry>, x: Search) { x.pending == [] && x.started >= |cargo| }

  /** The destination is next on the worklist. */
  predicate Finds(c: nat, x: Search) { x.pending != [] && x.pending[|x.pending| - 1] == c }

  /** Visits the channel on top of the worklist under its lock, or starts on the next handle. */
  function Searched(now: seq<Channel>, cargo: seq<HandleEntry>, x: Search): Search
    requires !Finished(cargo, x)
  {
    if x.pending == [] then
      var o := cargo[x.started].obj;
      Search(x.started + 1, x.visited, if o.Endpoint? then [o.channel] else [])
    else
      var rest, top := x.pending[..|x.pending| - 1], x.pending[|x.pending| - 1];
      if top in x.visited then x.(pending := rest)
      else
        var found := if top < |now| then Outgoing(Entries(now[top])) else [];
        Search(x.started, x.visited + [top], rest + found)
  }

  /** Every handle whose search has started is visited or waiting. */
  ghost predicate Covered(cargo: seq<HandleEntry>, x: Search)
  {
    && x.started <= |cargo|
    && forall i :: 0 <= i < x.started && cargo[i].obj.Endpoint? ==>
         cargo[i].obj.channel in x.visited || cargo[i].obj.channel in x.pending
  }

  /** In the graph the search began with, one of the handles leads here. */
  ghost predicate FromCargo(first: seq<Channel>, cargo: seq<HandleEntry>, d: nat)
  {
    exists i :: 0 <= i < |cargo| && cargo[i].obj.Endpoint? && Reaches(first, cargo[i].obj.channel, d)
  }

  ghost predicate SearchInv(
    now: seq<Channel>, first: seq<Channel>, cargo: seq<HandleEntry>, c: nat, x: Search)
  {
    && Subgraph(now, first) && c !in x.visited && ClosedUpTo(now, x.visited, x.pending) && Covered(cargo, x)
    && forall d :: d in x.pending ==> FromCargo(first, cargo, d)
  }

  lemma {:induction false} OutgoingIsExact(entries: seq<HandleEntry>, d: nat)
    ensures d in Outgoing(entries) <==> AnyLeads(entries, d)
  {
    if entries != [] {
      var n := |entries| - 1;
      OutgoingIsExact(entries[..n], d);
      AnyLeadsSnoc(entries[..n], entries[n], d);
      assert entries == entries[..n] + [entries[n]];
    }
  }

  lemma SubgraphTransitive(a: seq<Channel>, b: seq<Channel>, c: seq<Channel>)
    requires Subgraph(a, b) && Subgraph(b, c)
    ensures Subgraph(a, c)
  {
  }

  /** Edges that disappear between two steps do not spoil a search. */
  lemma RemovalKeepsSearch(
    later: seq<Channel>, now: seq<Channel>, first: seq<Channel>, cargo: seq<HandleEntry>, c: nat, x: Search)
    requires SearchInv(now, first, cargo, c, x) && Subgraph(later, now)
    ensures SearchInv(later, first, cargo, c, x)
  {
    SubgraphTransitive(later, now, first);
  }

  lemma FoundNext(now: seq<Channel>, first: seq<Channel>, cargo: seq<HandleEntry>, top: nat, d: nat)
    requires Subgraph(now, first) && FromCargo(first, cargo, top) && Carries(now, top, d)
    ensures FromCargo(first, cargo, d)
  {
    var i :| 0 <= i < |cargo| && cargo[i].obj.Endpoint? && Reaches(first, cargo[i].obj.channel, top);
    ReachesThenStep(first, cargo[i].obj.channel, top, d);
  }

  lemma StartKeepsSearch(now: seq<Channel>, first: seq<Channel>, cargo: seq<HandleEntry>, c: nat, x: Search)
    requires SearchInv(now, first, cargo, c, x) && x.pending == [] && x.started < |cargo|
    ensures SearchInv(now, first, cargo, c, Searched(now, cargo, x))
  {
    var o := cargo[x.started].obj;
    if o.Endpoint? {
      ReachesSelf(first, o.channel);
      assert FromCargo(first, cargo, o.channel);
    }
  }

  lemma VisitKeepsSearch(now: seq<Channel>, first: seq<Channel>, cargo: seq<HandleEntry>, c: nat, x: Search)
    requires SearchInv(now, first, cargo, c, x) && x.pending != [] && !Finds(c, x)
    ensures SearchInv(now, first, cargo, c, Searched(now, cargo, x))
  {
    var rest, top := x.pending[..|x.pending| - 1], x.pending[|x.pending| - 1];
    var x' := Searched(now, cargo, x);
    assert x.pending == rest + [top] && top in x.pending;
    forall d: nat ensures d in x'.pending ==> d in x.pending || Carries(now, top, d)
      ensures Carries(now, top, d) && top !in x.visited ==> d in x'.pending
    {
      if top < |now| { OutgoingIsExact(Entries(now[top]), d); }
    }
    forall d | d in x'.pending ensures FromCargo(first, cargo, d) {
      if d !in x.pending { FoundNext(now, first, cargo, top, d); }
    }
  }

  /** A search that ends without finding the destination has shown that no handle leads
      there now. */
  lemma FinishedMeansNoCycle(now: seq<Channel>, first: seq<Channel>, cargo: seq<HandleEntry>, c: nat, x: Search)
    requires SearchInv(now, first, cargo, c, x) && Finished(cargo, x)
    ensures !ClosesCycle(now, cargo, c)
  {
    forall i | 0 <= i < |cargo| && cargo[i].obj.Endpoint? ensures !Reaches(now, cargo[i].obj.channel, c) {
      ClosedNeverReaches(now, x.visited, cargo[i].obj.channel, c);
    }
  }

  /** One that finds it has shown that some handle led there when it began. */
  lemma FoundMeansCycle(now: seq<Channel>, first: seq<Channel>, cargo: seq<HandleEntry>, c: nat, x: Search)
    requires SearchInv(now, first, cargo, c, x) && Finds(c, x)
    ensures ClosesCycle(first, cargo, c)
  {
    assert c in x.pending;
  }

  // ---------------------------------------------------- a write in many steps

  /** A write past its early checks: it holds its table, the graph lock and the lock of its
      destination. `begun` is the world it started in. */
  datatype Writing = Writing(
    t: nat, channel: u32, bytes: seq<u8>, batch: seq<Disposition>, begun: World, search: Search)

  datatype Kernel = Kernel(world: World, writing: Option<Writing>)

  /** `Advance` is the next thing the writer does; `GiveUp` is its running out of memory. */
  datatype Event =
    | Other(op: Op)
    | Begin(t: nat, channel: u32, bytes: seq<u8>, batch: seq<Disposition>)
    | Advance
    | GiveUp

  ghost predicate Begun(s: Writing)
  {
    Wf(s.begun) && s.t < |s.begun.tables| && EarlyWriteError(s.begun, s.t, s.channel, s.bytes, s.batch).None?
  }

  ghost function Target(s: Writing): (e: Object)
    requires Begun(s)
    ensures IsEndpoint(s.begun, e)
  {
    EndpointFor(s.begun, s.t, s.channel, WRITE).value
  }

  ghost function Cargo(s: Writing): seq<HandleEntry>
    requires Begun(s)
  {
    Prepared(s.begun.tables[s.t], s.batch)
  }

  /** The writer's table and destination are as they were when it took hold of them. */
  ghost predicate Held(w: World, s: Writing)
    requires Begun(s)
  {
    && s.t < |w.tables| && w.tables[s.t] == s.begun.tables[s.t]
    && Target(s).channel < |w.channels| && w.channels[Target(s).channel] == s.begun.channels[Target(s).channel]
  }

  ghost predicate Proper(k: Kernel)
  {
    Wf(k.world) && (k.writing.Some? ==> Begun(k.writing.value) && Held(k.world, k.writing.value))
  }

  /** What other threads can do meanwhile: anything that needs none of the writer's locks. */
  ghost predicate Admits(k: Kernel, op: Op)
    requires Proper(k)
  {
    k.writing.Some? ==> !TakesGraphLock(op) && Held(Step(k.world, op), k.writing.value)
  }

  /** The commit, without looking at the graph again. */
  ghost function Committed(w: World, s: Writing): World
    requires Wf(w) && Begun(s) && Held(w, s)
  {
    var e := Target(s);
    var ch := Push(w.channels[e.channel], 1 - e.side, Message(s.bytes, Cargo(s)));
    AddStrong(SetChannel(SetTable(w, s.t, TakeMoves(w.tables[s.t], s.batch)), e.channel, ch),
              Cloned(w.tables[s.t], s.batch))
  }

  /** Commit when the search is over, refuse when it meets the destination, else search on. */
  ghost function Advanced(k: Kernel): Kernel
    requires Proper(k) && k.writing.Some?
  {
    var s := k.writing.value;
    if Finished(Cargo(s), s.search) then Kernel(Committed(k.world, s), None)
    else if Finds(Target(s).channel, s.search) then k.(writing := None)
    else k.(writing := Some(s.(search := Searched(k.world.channels, Cargo(s), s.search))))
  }

  /** An event that cannot happen yet changes nothing. */
  ghost function Next(k: Kernel, e: Event): Kernel
    requires Proper(k)
  {
    match e
    case Other(op) => if Admits(k, op) then k.(world := Step(k.world, op)) else k
    case Begin(t, channel, bytes, batch) =>
      if k.writing.None? && batch != [] && t < |k.world.tables|
         && EarlyWriteError(k.world, t, channel, bytes, batch).None?
      then k.(writing := Some(Writing(t, channel, bytes, batch, k.world, NO_SEARCH))) else k
    case Advance => if k.writing.Some? then Advanced(k) else k
    case GiveUp => k.(writing := None)
  }

  ghost predicate WritingInv(w: World, s: Writing)
    requires Begun(s)
  {
    SearchInv(w.channels, s.begun.channels, Cargo(s), Target(s).channel, s.search)
  }

  ghost predicate KernelInv(k: Kernel)
  {
    Inv(k.world) && Proper(k) && (k.writing.Some? ==> WritingInv(k.world, k.writing.value))
  }

  lemma OtherKeepsInv(k: Kernel, op: Op)
    requires KernelInv(k) && Admits(k, op)
    ensures KernelInv(k.(world := Step(k.world, op)))
  {
    StepKeepsInv(k.world, op);
    if k.writing.Some? {
      var s := k.writing.value;
      OnlyGraphWritesAddEdges(k.world, op);
      RemovalKeepsSearch(Step(k.world, op).channels, k.world.channels, s.begun.channels,
                         Cargo(s), Target(s).channel, s.search);
    }
  }

  lemma BeginKeepsInv(k: Kernel, t: nat, channel: u32, bytes: seq<u8>, batch: seq<Disposition>)
    requires KernelInv(k)
    ensures KernelInv(Next(k, Begin(t, channel, bytes, batch)))
  {
  }

  lemma SearchKeepsInv(k: Kernel)
    requires KernelInv(k) && k.writing.Some?
    requires var s := k.writing.value; !Finished(Cargo(s), s.search) && !Finds(Target(s).channel, s.search)
    ensures KernelInv(Advanced(k))
  {
    var s := k.writing.value;
    if s.search.pending == [] {
      StartKeepsSearch(k.world.channels, s.begun.channels, Cargo(s), Target(s).channel, s.search);
    } else {
      VisitKeepsSearch(k.world.channels, s.begun.channels, Cargo(s), Target(s).channel, s.search);
    }
  }

  lemma SameEarlyChecks(w: World, s: Writing)
    requires Wf(w) && Begun(s) && Held(w, s)
    ensures EndpointFor(w, s.t, s.channel, WRITE) == Ok(Target(s))
    ensures EarlyWriteError(w, s.t, s.channel, s.bytes, s.batch).None?
  {
  }

  /** The commit is the atomic write, made at that very moment: no check would fail now. */
  lemma CommitIsAtomic(w: World, s: Writing)
    requires Wf(w) && Begun(s) && Held(w, s) && WritingInv(w, s) && Finished(Cargo(s), s.search)
    ensures WriteError(w, s.t, s.channel, s.bytes, s.batch).None?
    ensures Committed(w, s) == AfterWrite(w, s.t, s.channel, s.bytes, s.batch)
  {
    SameEarlyChecks(w, s);
    FinishedMeansNoCycle(w.channels, s.begun.channels, Cargo(s), Target(s).channel, s.search);
  }

  /** A refused write would have closed a cycle in the world it began in. */
  lemma RefusalWasRight(k: Kernel)
    requires KernelInv(k) && k.writing.Some?
    requires Finds(Target(k.writing.value).channel, k.writing.value.search)
    ensures var s := k.writing.value; WriteError(s.begun, s.t, s.channel, s.bytes, s.batch) == Some(CyclicTransfer)
  {
    var s := k.writing.value;
    FoundMeansCycle(k.world.channels, s.begun.channels, Cargo(s), Target(s).channel, s.search);
  }

  lemma AdvanceKeepsInv(k: Kernel)
    requires KernelInv(k) && k.writing.Some?
    ensures KernelInv(Advanced(k))
  {
    var s := k.writing.value;
    if Finished(Cargo(s), s.search) {
      CommitIsAtomic(k.world, s);
      WriteKeepsInv(k.world, s.t, s.channel, s.bytes, s.batch);
    } else if !Finds(Target(s).channel, s.search) {
      SearchKeepsInv(k);
    }
  }

  lemma NextKeepsInv(k: Kernel, e: Event)
    requires KernelInv(k)
    ensures KernelInv(Next(k, e))
  {
    match e
    case Other(op) => if Admits(k, op) { OtherKeepsInv(k, op); }
    case Begin(t, channel, bytes, batch) => BeginKeepsInv(k, t, channel, bytes, batch);
    case Advance => if k.writing.Some? { AdvanceKeepsInv(k); }
    case GiveUp =>
  }

  // -------------------------------------------------------------------- runs

  ghost function RunAll(k: Kernel, events: seq<Event>): Kernel
    decreases |events|
  {
    if events == [] || !Proper(k) then k else RunAll(Next(k, events[0]), events[1..])
  }

  ghost predicate Commits(k: Kernel)
    requires Proper(k)
  {
    k.writing.Some? && Finished(Cargo(k.writing.value), k.writing.value.search)
  }

  function WriteOp(s: Writing): Op { WriteChannel(s.t, s.channel, s.bytes, s.batch) }

  lemma CommitIsStep(w: World, s: Writing)
    requires Wf(w) && Begun(s) && Held(w, s) && WritingInv(w, s) && Finished(Cargo(s), s.search)
    ensures Committed(w, s) == Step(w, WriteOp(s))
  {
    CommitIsAtomic(w, s);
  }

  lemma CommitWorld(k: Kernel)
    requires Proper(k) && Commits(k)
    ensures Next(k, Advance).world == Committed(k.world, k.writing.value)
  {
  }

  /** The atomic operations that an event amounts to: one, or none. */
  ghost function AtomicOps(k: Kernel, e: Event): seq<Op>
    requires Proper(k)
  {
    if e.Other? && Admits(k, e.op) then [e.op]
    else if e.Advance? && Commits(k) then [WriteOp(k.writing.value)]
    else []
  }

  lemma RunOne(w: World, op: Op)
    requires Wf(w)
    ensures Run(w, [op]) == Step(w, op)
  {
    assert [op][1..] == [];
  }

  lemma CommitStep(k: Kernel)
    requires KernelInv(k) && Commits(k)
    ensures Next(k, Advance).world == Run(k.world, AtomicOps(k, Advance))
  {
    CommitWorld(k);
    CommitIsStep(k.world, k.writing.value);
    RunOne(k.world, WriteOp(k.writing.value));
  }

  lemma NextIsAtomic(k: Kernel, e: Event)
    requires KernelInv(k)
    ensures Next(k, e).world == Run(k.world, AtomicOps(k, e))
  {
    if e.Other? && Admits(k, e.op) {
      RunOne(k.world, e.op);
    } else if e.Advance? && Commits(k) {
      CommitStep(k);
    } else {
      QuietEvent(k, e);
    }
  }

  lemma QuietEvent(k: Kernel, e: Event)
    requires Proper(k) && !(e.Other? && Admits(k, e.op)) && !(e.Advance? && Commits(k))
    ensures Next(k, e).world == k.world
  {
  }

  lemma {:induction false} RunConcat(w: World, a: seq<Op>, b: seq<Op>)
    requires Inv(w)
    ensures Run(w, a + b) == Run(Run(w, a), b)
    decreases |a|
  {
    if a == [] {
      assert a + b == b;
    } else {
      assert (a + b)[1..] == a[1..] + b;
      StepKeepsInv(w, a[0]);
      RunConcat(Step(w, a[0]), a[1..], b);
    }
  }

  /** Whatever happens between the steps of a write, every run is a run of atomic
      operations: each write takes effect at its commit. */
  lemma {:induction false} RunsAreAtomic(k: Kernel, events: seq<Event>) returns (ops: seq<Op>)
    requires KernelInv(k)
    ensures KernelInv(RunAll(k, events)) && RunAll(k, events).world == Run(k.world, ops)
    decreases |events|
  {
    if events == [] {
      ops := [];
    } else {
      NextKeepsInv(k, events[0]);
      NextIsAtomic(k, events[0]);
      var more := RunsAreAtomic(Next(k, events[0]), events[1..]);
      ops := AtomicOps(k, events[0]) + more;
      RunConcat(k.world, AtomicOps(k, events[0]), more);
    }
  }

  const IDLE := Kernel(INITIAL, None)

  /** So no interleaving ever closes a cycle or breaks any other part of the invariant. */
  lemma InterleavedRunsStaySound(events: seq<Event>)
    ensures Inv(RunAll(IDLE, events).world) && Acyclic(RunAll(IDLE, events).world.channels)
  {
    InitialInv();
    var ops := RunsAreAtomic(IDLE, events);
  }

  // ------------------------------------------------- the views of one search

  ghost function WorldAt(w: World, ops: seq<Op>, i: nat): World
  {
    Run(w, ops[..if i <= |ops| then i else |ops|])
  }

  /** What the i-th lock acquisition sees while these operations run. */
  ghost function Views(w: World, ops: seq<Op>): nat -> seq<Channel>
  {
    (i: nat) => WorldAt(w, ops, i).channels
  }

  /** While no one else holds the graph lock, what a search sees only ever shrinks. */
  lemma QuietRunsOnlyRemove(w: World, ops: seq<Op>)
    requires Inv(w) && forall i :: 0 <= i < |ops| ==> !TakesGraphLock(ops[i])
    ensures OnlyRemovals(Views(w, ops)) && Known(Views(w, ops), |w.channels|)
  {
    forall i: nat ensures RemovesAt(Views(w, ops), i) && ShapedAt(Views(w, ops), i, |w.channels|) {
      QuietView(w, ops, i);
    }
    assert Views(w, ops)(0) == w.channels by { assert ops[..0] == []; }
    KnownAtFirst(w);
  }

  lemma KnownAtFirst(w: World)
    requires Inv(w)
    ensures forall c: nat, d: nat :: Carries(w.channels, c, d) ==> d < |w.channels|
  {
    InvIsLinked(w);
    forall c: nat, d: nat | Carries(w.channels, c, d) ensures d < |w.channels| { CarriedIsKnown(w, c, d); }
  }

  lemma {:induction false} QuietRunGrows(w: World, ops: seq<Op>)
    requires Inv(w) && forall i :: 0 <= i < |ops| ==> !TakesGraphLock(ops[i])
    ensures |w.channels| <= |Run(w, ops).channels|
    decreases |ops|
  {
    if ops != [] {
      OnlyGraphWritesAddEdges(w, ops[0]);
      StepKeepsInv(w, ops[0]);
      QuietRunGrows(Step(w, ops[0]), ops[1..]);
    }
  }

  lemma QuietView(w: World, ops: seq<Op>, i: nat)
    requires Inv(w) && forall i :: 0 <= i < |ops| ==> !TakesGraphLock(ops[i])
    ensures RemovesAt(Views(w, ops), i) && ShapedAt(Views(w, ops), i, |w.channels|)
  {
    var seen := ops[..if i <= |ops| then i else |ops|];
    RunKeepsInv(w, seen);
    QuietRunGrows(w, seen);
    if i < |ops| {
      NextWorld(w, ops, i);
      OnlyGraphWritesAddEdges(WorldAt(w, ops, i), ops[i]);
    }
  }

  lemma NextWorld(w: World, ops: seq<Op>, i: nat)
    requires Inv(w) && i < |ops|
    ensures Wf(WorldAt(w, ops, i)) && WorldAt(w, ops, i + 1) == Step(WorldAt(w, ops, i), ops[i])
  {
    RunKeepsInv(w, ops[..i]);
    assert ops[..i + 1] == ops[..i] + [ops[i]];
    RunConcat(w, ops[..i], [ops[i]]);
    RunOne(Run(w, ops[..i]), ops[i]);
  }
}
