/** Reference counting reclaims exactly what no handle table can reach. */
module Reclamation {
  import opened Objects
  import opened Refs
  import opened Totals
  import opened Channels
  import opened ChannelGraph
  import opened World
  import opened WorldInvariant

  ghost predicate TablesHold(w: World, o: Object)
  {
    Total(w.tables, TableCounter(o)) > 0
  }

  /** A message waiting for endpoint `e` carries a reference to `o`. */
  ghost predicate QueueHolds(w: World, e: Object, o: Object)
    requires Wf(w)
  {
    IsEndpoint(w, e) && EntriesCount(Contents(w.channels[e.channel].queues[e.side]), o) > 0
  }

  ghost predicate Chain(w: World, es: seq<Object>)
    requires Wf(w)
  {
    && |es| > 0 && TablesHold(w, es[0])
    && forall i :: 0 <= i < |es| - 1 ==> QueueHolds(w, es[i], es[i + 1])
  }

  ghost predicate ChainTo(w: World, es: seq<Object>, o: Object)
    requires Wf(w)
  {
    Chain(w, es) && es[|es| - 1] == o
  }

  /** Some process can still get at `o`: it is in a handle table, or in a message queued
      for an endpoint some process can get at. */
  ghost predicate Rooted(w: World, o: Object)
    requires Wf(w)
  {
    exists es :: ChainTo(w, es, o)
  }

  /** All destructors have run. */
  ghost predicate Settled(w: World)
    requires Wf(w)
  {
    w.dropping == [] && forall c: nat, side: nat :: !Dying(w, c, side)
  }

  predicate IsOpen(w: World, o: Object)
    requires IsEndpoint(w, o) && Shape(w.channels[o.channel])
  {
    w.channels[o.channel].open[o.side]
  }

  lemma QueueHeldIsCounted(w: World, e: Object, o: Object)
    requires Wf(w) && References(w, o) == w.strong[o] && QueueHolds(w, e, o)
    ensures o in w.strong && IsOpen(w, e)
  {
    var ch := w.channels[e.channel];
    HoldingIsOpen(ch, e.side, o);
    ChannelCountSplits(ch, o);
    ChannelIsCounted(w, e.channel, o);
  }

  lemma HoldingIsOpen(ch: Channel, side: nat, o: Object)
    requires Shape(ch) && side < 2 && SideInv(ch, side) && EntriesCount(Contents(ch.queues[side]), o) > 0
    ensures ch.open[side]
  {
    EmptyHoldsNothing(ch.queues[side], o);
  }

  lemma EmptyHoldsNothing(queue: seq<Message>, o: Object)
    ensures queue == [] ==> EntriesCount(Contents(queue), o) == 0
  {
  }

  lemma ChannelIsCounted(w: World, c: nat, o: Object)
    requires c < |w.channels|
    ensures ChannelCount(w.channels[c], o) <= References(w, o)
  {
    TotalUpdate(w.channels, c, w.channels[c], ChannelCounter(o));
  }

  lemma HeldIsCounted(w: World, o: Object)
    requires Inv(w)
    ensures TablesHold(w, o) ==> o in w.strong
    ensures forall e :: QueueHolds(w, e, o) ==> o in w.strong && IsOpen(w, e)
  {
    assert References(w, o) == w.strong[o];
    forall e | QueueHolds(w, e, o) ensures o in w.strong && IsOpen(w, e) { QueueHeldIsCounted(w, e, o); }
  }

  lemma ChainIsCounted(w: World, es: seq<Object>, i: nat)
    requires Inv(w) && Chain(w, es) && i < |es|
    ensures es[i] in w.strong
  {
    HeldIsCounted(w, es[i]);
    if i > 0 { assert QueueHolds(w, es[i - 1], es[i - 1 + 1]); }
  }

  /** A counted object that no table holds and nobody is dropping sits in some queue. */
  lemma FindHolder(w: World, o: Object) returns (e: Object)
    requires Wf(w) && References(w, o) == w.strong[o] && w.dropping == [] && o in w.strong && !TablesHold(w, o)
    ensures QueueHolds(w, e, o)
  {
    var c := TotalHolder(w.channels, ChannelCounter(o));
    ChannelCountSplits(w.channels[c], o);
    if EntriesCount(Contents(w.channels[c].queues[0]), o) > 0 {
      e := Endpoint(c, 0);
    } else {
      e := Endpoint(c, 1);
    }
  }

  lemma {:induction false} CountedLeads(entries: seq<HandleEntry>, o: Object)
    requires o.Endpoint? && EntriesCount(entries, o) > 0
    ensures AnyLeads(entries, o.channel)
  {
    var i := TotalHolder(entries, EntryCount(o));
    assert Leads(entries[i], o.channel);
  }

  lemma HolderCarries(w: World, e: Object, o: Object)
    requires Wf(w) && QueueHolds(w, e, o) && o.Endpoint?
    ensures Carries(w.channels, e.channel, o.channel)
  {
    var ch := w.channels[e.channel];
    ChannelCountSplits(ch, o);
    CountedLeads(Entries(ch), o);
  }

  lemma ExtendChain(w: World, e: Object, o: Object)
    requires Wf(w) && Rooted(w, e) && QueueHolds(w, e, o)
    ensures Rooted(w, o)
  {
    var es :| ChainTo(w, es, e);
    assert ChainTo(w, es + [o], o);
  }

  /** Everything in `below` lies downstream of endpoint `o`, whose channel is not in it. */
  ghost predicate Above(w: World, o: Object, below: set<nat>)
  {
    if o.Endpoint? then o.channel !in below && forall d: nat :: d in below ==> Reaches(w.channels, o.channel, d)
    else below == {}
  }

  function Downstream(o: Object, below: set<nat>): set<nat>
  {
    if o.Endpoint? then below + {o.channel} else below
  }

  /** The holder of an unheld-by-tables object is live and, by acyclicity, strictly upstream. */
  lemma ClimbToHolder(w: World, o: Object, below: set<nat>) returns (e: Object)
    requires Inv(w) && Settled(w) && o in w.strong && !TablesHold(w, o) && Above(w, o, below)
    ensures QueueHolds(w, e, o) && e in w.strong && Above(w, e, Downstream(o, below))
  {
    e := FindHolder(w, o);
    HeldIsCounted(w, o);
    assert !Dying(w, e.channel, e.side);
    if o.Endpoint? {
      HolderCarries(w, e, o);
      ReachesSelf(w.channels, o.channel);
      assert !Reaches(w.channels, o.channel, e.channel);
      forall d: nat | d in below + {o.channel} ensures Reaches(w.channels, e.channel, d) {
        ReachesStep(w.channels, e.channel, o.channel, d);
      }
    }
  }

  ghost function Unseen(w: World, below: set<nat>): set<nat>
  {
    set c: nat | c < |w.channels| && c !in below
  }

  /** Climbing from holder to holder never revisits a channel, so it ends at a table. */
  lemma {:induction false} CountedIsRooted(w: World, o: Object, below: set<nat>)
    requires Inv(w) && Settled(w) && o in w.strong && Above(w, o, below)
    ensures Rooted(w, o)
    decreases Unseen(w, below), o.Other?
  {
    if TablesHold(w, o) {
      assert ChainTo(w, [o], o);
    } else {
      var e := ClimbToHolder(w, o, below);
      if o.Endpoint? {
        assert IsEndpoint(w, o);
        assert o.channel in Unseen(w, below) && o.channel !in Unseen(w, below + {o.channel});
      }
      CountedIsRooted(w, e, Downstream(o, below));
      ExtendChain(w, e, o);
    }
  }

  /** Once destructors have settled, the live objects are exactly the reachable ones, and
      the open endpoints are exactly the reachable endpoints. */
  lemma LiveIsReachable(w: World, o: Object)
    requires Inv(w) && Settled(w)
    ensures o in w.strong <==> Rooted(w, o)
    ensures IsEndpoint(w, o) ==> (IsOpen(w, o) <==> Rooted(w, o))
  {
    if o in w.strong {
      CountedIsRooted(w, o, {});
    }
    if Rooted(w, o) {
      var es :| ChainTo(w, es, o);
      ChainIsCounted(w, es, |es| - 1);
    }
    if IsEndpoint(w, o) && IsOpen(w, o) {
      assert !Dying(w, o.channel, o.side);
    }
  }

  // ---------------------------------------------------------------- cascade

  /** A destructor step that has something to do. */
  ghost predicate DropStep(w: World, op: Op)
    requires Wf(w)
  {
    || (op.DropReference? && op.k < |w.dropping|)
    || (op.FinishDrop? && Dying(w, op.c, op.side))
  }

  ghost function OpenCounter(): Channel -> nat
  {
    (ch: Channel) => if !Shape(ch) then 0 else (if ch.open[0] then 1 else 0) + (if ch.open[1] then 1 else 0)
  }

  /** References plus open endpoints: each destructor step uses up exactly one. */
  ghost function CascadeWork(w: World): nat
  {
    |w.strong| + Total(w.channels, OpenCounter())
  }

  lemma DropReferenceMakesProgress(w: World, k: nat)
    requires Counted(w) && k < |w.dropping|
    ensures CascadeWork(AfterDropReference(w, k)) == CascadeWork(w) - 1
  {
    var o := w.dropping[k].obj;
    TotalUpdate(w.dropping, k, w.dropping[k], EntryCount(o));
    assert References(w, o) == w.strong[o];
  }

  lemma FinishDropMakesProgress(w: World, c: nat, side: nat)
    requires Wf(w) && Dying(w, c, side)
    ensures CascadeWork(AfterFinishDrop(w, c, side)) == CascadeWork(w) - 1
  {
    TotalUpdate(w.channels, c, CloseSide(w.channels[c], side), OpenCounter());
  }

  /** A destructor step with something to do is one of these two. */
  lemma DropStepIs(w: World, op: Op)
    requires Wf(w) && DropStep(w, op)
    ensures Step(w, op) == if op.FinishDrop? then AfterFinishDrop(w, op.c, op.side) else AfterDropReference(w, op.k)
  {
  }

  lemma DropStepMakesProgress(w: World, op: Op)
    requires Wf(w) && Counted(w) && DropStep(w, op)
    ensures CascadeWork(Step(w, op)) == CascadeWork(w) - 1
  {
    DropStepIs(w, op);
    if op.FinishDrop? {
      FinishDropMakesProgress(w, op.c, op.side);
    } else {
      DropReferenceMakesProgress(w, op.k);
    }
  }

  /** What destructor steps leave alone: the tables, who can reach what, and every queue
      that some process can still read. */
  ghost predicate SameReach(w: World, w': World)
    requires Wf(w) && Wf(w')
  {
    && w'.tables == w.tables && |w'.channels| == |w.channels|
    && (forall o :: Rooted(w', o) <==> Rooted(w, o))
    && (forall o :: IsEndpoint(w, o) && Rooted(w, o) ==>
          w'.channels[o.channel].queues[o.side] == w.channels[o.channel].queues[o.side])
  }

  /** Only what the closed side held is let go. */
  lemma FinishDropKeepsHold(w: World, c: nat, side: nat, e: Object, o: Object)
    requires Wf(w) && Dying(w, c, side) && Wf(AfterFinishDrop(w, c, side))
    ensures QueueHolds(AfterFinishDrop(w, c, side), e, o) ==> QueueHolds(w, e, o)
    ensures e != Endpoint(c, side) && QueueHolds(w, e, o) ==> QueueHolds(AfterFinishDrop(w, c, side), e, o)
  {
  }

  lemma FinishDropKeepsChains(w: World, c: nat, side: nat, es: seq<Object>)
    requires Inv(w) && Dying(w, c, side) && Wf(AfterFinishDrop(w, c, side))
    ensures Chain(AfterFinishDrop(w, c, side), es) <==> Chain(w, es)
  {
    var w' := AfterFinishDrop(w, c, side);
    if Chain(w, es) {
      forall i | 0 <= i < |es| - 1 ensures QueueHolds(w', es[i], es[i + 1]) {
        ChainIsCounted(w, es, i);
        FinishDropKeepsHold(w, c, side, es[i], es[i + 1]);
      }
    }
    if Chain(w', es) {
      forall i | 0 <= i < |es| - 1 ensures QueueHolds(w, es[i], es[i + 1]) {
        FinishDropKeepsHold(w, c, side, es[i], es[i + 1]);
      }
    }
  }

  lemma RootedIsCounted(w: World, o: Object)
    requires Inv(w) && Rooted(w, o)
    ensures o in w.strong
  {
    var es :| ChainTo(w, es, o);
    ChainIsCounted(w, es, |es| - 1);
  }

  lemma CountedQueueSurvives(w: World, c: nat, side: nat, o: Object)
    requires Wf(w) && Dying(w, c, side) && IsEndpoint(w, o) && o in w.strong
    ensures AfterFinishDrop(w, c, side).channels[o.channel].queues[o.side] == w.channels[o.channel].queues[o.side]
  {
    assert o != Endpoint(c, side);
  }

  lemma FinishDropKeepsReach(w: World, c: nat, side: nat)
    requires Inv(w) && Dying(w, c, side) && Wf(AfterFinishDrop(w, c, side))
    ensures SameReach(w, AfterFinishDrop(w, c, side))
  {
    var w' := AfterFinishDrop(w, c, side);
    forall es { FinishDropKeepsChains(w, c, side, es); }
    SameChainsSameRoots(w, w');
    forall o | IsEndpoint(w, o) && Rooted(w, o)
      ensures w'.channels[o.channel].queues[o.side] == w.channels[o.channel].queues[o.side]
    {
      RootedIsCounted(w, o);
      CountedQueueSurvives(w, c, side, o);
    }
  }

  lemma DropReferenceKeepsReach(w: World, k: nat)
    requires Wf(w) && k < |w.dropping|
    ensures Wf(AfterDropReference(w, k)) && SameReach(w, AfterDropReference(w, k))
  {
    var w' := AfterDropReference(w, k);
    assert forall e, o :: QueueHolds(w', e, o) <==> QueueHolds(w, e, o);
    SameChainsSameRoots(w, w');
  }

  lemma DropStepKeepsReach(w: World, op: Op)
    requires Inv(w) && DropStep(w, op)
    ensures Inv(Step(w, op)) && SameReach(w, Step(w, op))
  {
    StepKeepsInv(w, op);
    DropStepIs(w, op);
    if op.FinishDrop? {
      FinishDropKeepsReach(w, op.c, op.side);
      SameReachTo(w, AfterFinishDrop(w, op.c, op.side), Step(w, op));
    } else {
      DropReferenceKeepsReach(w, op.k);
      SameReachTo(w, AfterDropReference(w, op.k), Step(w, op));
    }
  }

  lemma SameReachTo(w: World, w': World, w'': World)
    requires Wf(w) && Wf(w') && SameReach(w, w') && w' == w''
    ensures SameReach(w, w'')
  {
  }

  lemma SameChainsSameRoots(w: World, w': World)
    requires Wf(w) && Wf(w') && forall es :: Chain(w', es) <==> Chain(w, es)
    ensures forall o :: Rooted(w', o) <==> Rooted(w, o)
  {
    forall o ensures Rooted(w', o) <==> Rooted(w, o) {
      if Rooted(w, o) { var es :| ChainTo(w, es, o); assert ChainTo(w', es, o); }
      if Rooted(w', o) { var es :| ChainTo(w', es, o); assert ChainTo(w, es, o); }
    }
  }

  /** Every step of `ops` is a destructor step with something to do. */
  ghost predicate Cascade(w: World, ops: seq<Op>)
    decreases |ops|
  {
    ops == [] || (Wf(w) && DropStep(w, ops[0]) && Cascade(Step(w, ops[0]), ops[1..]))
  }

  lemma {:induction false} CascadeSnoc(w: World, ops: seq<Op>, op: Op)
    requires Cascade(w, ops) && Wf(Run(w, ops)) && DropStep(Run(w, ops), op)
    ensures Cascade(w, ops + [op]) && Run(w, ops + [op]) == Step(Run(w, ops), op)
    decreases |ops|
  {
    if ops == [] {
      assert (ops + [op])[1..] == [];
    } else {
      assert (ops + [op])[1..] == ops[1..] + [op];
      CascadeSnoc(Step(w, ops[0]), ops[1..], op);
    }
  }

  lemma SameReachTransitive(a: World, b: World, c: World)
    requires Wf(a) && Wf(b) && Wf(c) && SameReach(a, b) && SameReach(b, c)
    ensures SameReach(a, c)
  {
  }

  /** A cascade has at most as many steps as there are references and open endpoints. */
  lemma {:induction false} CascadeIsBounded(w: World, ops: seq<Op>)
    requires Inv(w) && Cascade(w, ops)
    ensures |ops| <= CascadeWork(w)
    decreases |ops|
  {
    if ops != [] {
      StepKeepsInv(w, ops[0]);
      DropStepMakesProgress(w, ops[0]);
      CascadeIsBounded(Step(w, ops[0]), ops[1..]);
    }
  }

  lemma {:induction false} CascadeKeepsReach(w: World, ops: seq<Op>)
    requires Inv(w) && Cascade(w, ops)
    ensures Inv(Run(w, ops)) && SameReach(w, Run(w, ops))
    decreases |ops|
  {
    RunKeepsInv(w, ops);
    if ops != [] {
      var next := Step(w, ops[0]);
      DropStepKeepsReach(w, ops[0]);
      CascadeKeepsReach(next, ops[1..]);
      SameReachTransitive(w, next, Run(next, ops[1..]));
    }
  }

  /** However destructors interleave, they stop after a bounded number of steps, and what
      they leave open is exactly what was reachable when they began. */
  lemma CascadeCollectsTheUnreachable(w: World, ops: seq<Op>, settled: World, o: Object)
    requires Inv(w) && Cascade(w, ops) && settled == Run(w, ops) && Wf(settled) && Settled(settled)
    ensures |ops| <= CascadeWork(w) && |settled.channels| == |w.channels|
    ensures o in settled.strong <==> Rooted(w, o)
    ensures IsEndpoint(settled, o) ==> (IsOpen(settled, o) <==> Rooted(w, o))
  {
    CascadeIsBounded(w, ops);
    CascadeKeepsReach(w, ops);
    LiveIsReachable(settled, o);
    assert Rooted(settled, o) <==> Rooted(w, o);
  }
}
