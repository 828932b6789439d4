/** Nobody is called back without cause. */
module Wakeups {
  import opened Channels
  import opened Waits

  /** What somebody asked to wait for, by token. */
  type Asked = set<(nat, WaitItem)>

  /** The signals that have been up, by facet. */
  type Seen = set<(nat, Signal)>

  ghost function UpNow(levels: seq<Signals>): Seen
  {
    set f: nat, x | f < |levels| && x in levels[f] :: (f, x)
  }

  ghost function AskedBy(e: Event): Asked
  {
    if e.StartWait? then set item | item in e.items :: (e.token, item) else {}
  }

  ghost function EverAsked(events: seq<Event>): Asked
  {
    if events == [] then {} else AskedBy(events[0]) + EverAsked(events[1..])
  }

  ghost function EverUp(s: System, events: seq<Event>): Seen
    requires Shaped(s)
    decreases |events|
  {
    UpNow(s.levels) + if events == [] then {} else EverUp(Step(s, events[0]), events[1..])
  }

  /** A signal the item waits for has been up on its facet. */
  ghost predicate Arose(item: WaitItem, seen: Seen)
  {
    exists x :: x in item.waitFor && (item.facet, x) in seen
  }

  /** The token asked for something that has been up. */
  ghost predicate HasCause(token: nat, asked: Asked, seen: Seen)
  {
    exists item :: (token, item) in asked && Arose(item, seen)
  }

  // -------------------------------------------------------------- invariant

  ghost predicate AllAsked(token: nat, items: seq<WaitItem>, asked: Asked)
  {
    forall i :: 0 <= i < |items| ==> (token, items[i]) in asked
  }

  ghost predicate TaskOk(task: Task, asked: Asked, seen: Seen)
  {
    match task
    case Callback(token) => HasCause(token, asked, seen)
    case Register(token, _, todo, ready) => AllAsked(token, todo, asked) && (ready ==> HasCause(token, asked, seen))
    case _ => true
  }

  ghost predicate TasksOk(tasks: seq<Task>, asked: Asked, seen: Seen)
  {
    forall i :: 0 <= i < |tasks| ==> TaskOk(tasks[i], asked, seen)
  }

  ghost predicate RecordOk(f: nat, w: Waiter, asked: Asked, seen: Seen)
  {
    (w.token, WaitItem(f, w.waitFor)) in asked && (w.notifying ==> Arose(WaitItem(f, w.waitFor), seen))
  }

  ghost predicate ListOk(f: nat, ws: seq<Waiter>, asked: Asked, seen: Seen)
  {
    forall w :: w in ws ==> RecordOk(f, w, asked, seen)
  }

  ghost predicate Justified(s: System, asked: Asked, seen: Seen)
  {
    && Shaped(s) && UpNow(s.levels) <= seen
    && (forall t :: 0 <= t < |s.threads| ==> TasksOk(s.threads[t], asked, seen))
    && (forall f :: 0 <= f < |s.waiters| ==> ListOk(f, s.waiters[f], asked, seen))
    && (forall token :: token in s.notified ==> HasCause(token, asked, seen))
  }

  /** Knowing of more requests and more signals spoils nothing. */
  lemma MoreIsKnown(s: System, asked: Asked, seen: Seen, asked': Asked, seen': Seen)
    requires Justified(s, asked, seen) && asked <= asked' && seen <= seen'
    ensures Justified(s, asked', seen')
  {
    forall token: nat | HasCause(token, asked, seen) ensures HasCause(token, asked', seen') {
      var item :| (token, item) in asked && Arose(item, seen);
      assert Arose(item, seen');
    }
    forall t | 0 <= t < |s.threads| ensures TasksOk(s.threads[t], asked', seen') {
      forall i | 0 <= i < |s.threads[t]| ensures TaskOk(s.threads[t][i], asked', seen') {
        assert TaskOk(s.threads[t][i], asked, seen);
      }
    }
    forall f | 0 <= f < |s.waiters| ensures ListOk(f, s.waiters[f], asked', seen') {
      forall w | w in s.waiters[f] ensures RecordOk(f, w, asked', seen') { assert RecordOk(f, w, asked, seen); }
    }
  }

  lemma ThreadSteps(s: System, t: nat, tasks: seq<Task>, asked: Asked, seen: Seen)
    requires Justified(s, asked, seen) && t < |s.threads| && TasksOk(tasks, asked, seen)
    ensures Justified(SetThread(s, t, tasks), asked, seen)
  {
  }

  lemma ListSteps(s: System, f: nat, ws: seq<Waiter>, asked: Asked, seen: Seen)
    requires Justified(s, asked, seen) && f < |s.waiters| && ListOk(f, ws, asked, seen)
    ensures Justified(SetWaiters(s, f, ws), asked, seen)
  {
  }

  lemma LevelIsSeen(s: System, item: WaitItem, seen: Seen)
    requires UpNow(s.levels) <= seen && item.facet < |s.levels| && Matches(s.levels[item.facet], item.waitFor)
    ensures Arose(item, seen)
  {
    var x :| x in s.levels[item.facet] * item.waitFor;
    assert (item.facet, x) in UpNow(s.levels);
  }

  lemma MarkedIsOk(s: System, f: nat, asked: Asked, seen: Seen)
    requires Justified(s, asked, seen) && f < |s.waiters|
    ensures ListOk(f, Marked(s.waiters[f], s.levels[f]), asked, seen)
  {
    var ws := Marked(s.waiters[f], s.levels[f]);
    forall w | w in ws ensures RecordOk(f, w, asked, seen) {
      var i :| 0 <= i < |ws| && ws[i] == w;
      assert RecordOk(f, s.waiters[f][i], asked, seen);
      if Matches(s.levels[f], w.waitFor) { LevelIsSeen(s, WaitItem(f, w.waitFor), seen); }
    }
  }

  lemma DeliverIsJustified(s: System, t: nat, f: nat, rest: seq<Task>, asked: Asked, seen: Seen)
    requires Justified(s, asked, seen) && t < |s.threads| && f < |s.waiters| && TasksOk(rest, asked, seen)
    ensures Justified(DeliverNext(s, t, f, rest), asked, seen)
  {
    var found := FirstNotifying(s.waiters[f]);
    if found.None? {
      ThreadSteps(s, t, rest, asked, seen);
    } else {
      var ws, i := s.waiters[f], found.value;
      assert RecordOk(f, ws[i], asked, seen);
      assert HasCause(ws[i].token, asked, seen);
      forall w | w in SwapRemove(ws, i) ensures w in ws {}
      ListSteps(s, f, SwapRemove(ws, i), asked, seen);
      ThreadSteps(SetWaiters(s, f, SwapRemove(ws, i)), t, [Callback(ws[i].token), Deliver(f)] + rest, asked, seen);
    }
  }

  lemma RegisterIsJustified(s: System, t: nat, task: Task, rest: seq<Task>, failing: bool, asked: Asked, seen: Seen)
    requires Justified(s, asked, seen) && t < |s.threads| && TasksOk(rest, asked, seen)
    requires task.Register? && task.todo != [] && TaskOk(task, asked, seen)
    ensures Justified(RegisterItem(s, t, task, rest, failing), asked, seen)
  {
    var item := task.todo[0];
    var next := Register(task.token, task.done + [item], task.todo[1..], task.ready);
    if failing || item.facet >= |s.levels| {
      ThreadSteps(s, t, [Unregister(task.token, Facets(task.done))] + rest, asked, seen);
    } else if Matches(s.levels[item.facet], item.waitFor) {
      LevelIsSeen(s, item, seen);
      ThreadSteps(s, t, [next.(ready := true)] + rest, asked, seen);
    } else if |s.waiters[item.facet]| >= WAITERS_PER_FACET_LIMIT {
      ThreadSteps(s, t, [Unregister(task.token, Facets(task.done))] + rest, asked, seen);
    } else {
      var ws := s.waiters[item.facet] + [Waiter(s.nextId, task.token, item.waitFor, false)];
      assert ListOk(item.facet, ws, asked, seen);
      ListSteps(s, item.facet, ws, asked, seen);
      ThreadSteps(SetWaiters(s, item.facet, ws), t, [next] + rest, asked, seen);
    }
  }

  lemma UnregisterIsJustified(s: System, t: nat, task: Task, rest: seq<Task>, asked: Asked, seen: Seen)
    requires Justified(s, asked, seen) && t < |s.threads| && TasksOk(rest, asked, seen) && task.Unregister?
    ensures Justified(UnregisterNext(s, t, task, rest), asked, seen)
  {
    if task.facets == [] {
      ThreadSteps(s, t, rest, asked, seen);
    } else {
      var f, more := task.facets[0], [Unregister(task.token, task.facets[1..])] + rest;
      if f < |s.waiters| {
        WithoutIsExact(s.waiters[f], task.token);
        ListSteps(s, f, Without(s.waiters[f], task.token), asked, seen);
        ThreadSteps(SetWaiters(s, f, Without(s.waiters[f], task.token)), t, more, asked, seen);
      } else {
        ThreadSteps(s, t, more, asked, seen);
      }
    }
  }

  lemma HeadIsJustified(s: System, t: nat, failing: bool, asked: Asked, seen: Seen)
    requires Justified(s, asked, seen) && t < |s.threads| && s.threads[t] != []
    ensures Justified(RunHead(s, t, failing), asked, seen)
  {
    var task, rest := s.threads[t][0], s.threads[t][1..];
    assert TaskOk(task, asked, seen) && TasksOk(rest, asked, seen);
    ThreadSteps(s, t, rest, asked, seen);
    match task
    case Mark(f) =>
      if f < |s.waiters| {
        var ws := Marked(s.waiters[f], s.levels[f]);
        MarkedIsOk(s, f, asked, seen);
        ListSteps(s, f, ws, asked, seen);
        ThreadSteps(SetWaiters(s, f, ws), t, [Deliver(f)] + rest, asked, seen);
      }
    case Deliver(f) => if f < |s.waiters| { DeliverIsJustified(s, t, f, rest, asked, seen); }
    case Callback(_) =>
    case Register(token, _, todo, ready) =>
      if todo != [] {
        RegisterIsJustified(s, t, task, rest, failing, asked, seen);
      } else {
        ThreadSteps(s, t, (if ready then [Callback(token)] else []) + rest, asked, seen);
      }
    case Unregister(_, _) => UnregisterIsJustified(s, t, task, rest, asked, seen);
  }

  lemma MutateIsJustified(s: System, t: nat, levels: seq<Signals>, notify: seq<nat>, asked: Asked, seen: Seen)
    requires Justified(s, asked, seen) && t < |s.threads| && |levels| == |s.levels| && UpNow(levels) <= seen
    ensures Justified(SetThread(s, t, Marks(notify) + s.threads[t]).(levels := levels), asked, seen)
  {
    ThreadSteps(s, t, Marks(notify) + s.threads[t], asked, seen);
  }

  lemma StepIsJustified(s: System, e: Event, asked: Asked, seen: Seen)
    requires Justified(s, asked, seen)
    ensures Justified(Step(s, e), asked + AskedBy(e), seen + UpNow(Step(s, e).levels))
  {
    var asked', seen' := asked + AskedBy(e), seen + UpNow(Step(s, e).levels);
    MoreIsKnown(s, asked, seen, asked', seen');
    match e
    case Mutate(t, levels, notify) =>
      if t < |s.threads| && RaisesOnly(s.levels, levels, notify) {
        MutateIsJustified(s, t, levels, notify, asked', seen');
      }
    case StartWait(t, token, items) =>
      if t < |s.threads| { ThreadSteps(s, t, [Register(token, [], items, false)] + s.threads[t], asked', seen'); }
    case CancelWait(t, token) =>
      if t < |s.threads| && token in s.waiting {
        ThreadSteps(s, t, [Unregister(token, Facets(s.waiting[token]))] + s.threads[t], asked', seen');
      }
    case RunTask(t, failing) =>
      if t < |s.threads| && s.threads[t] != [] { HeadIsJustified(s, t, failing, asked', seen'); }
  }

  lemma {:induction false} RunIsJustified(s: System, events: seq<Event>, asked: Asked, seen: Seen)
    requires Justified(s, asked, seen)
    ensures Justified(Waits.Run(s, events), asked + EverAsked(events), seen + EverUp(s, events))
    decreases |events|
  {
    if events == [] {
      assert asked + EverAsked(events) == asked;
      MoreIsKnown(s, asked, seen, asked, seen + EverUp(s, events));
    } else {
      var e, rest, s' := events[0], events[1..], Step(s, events[0]);
      StepIsJustified(s, e, asked, seen);
      var asked', seen' := asked + AskedBy(e), seen + UpNow(s'.levels);
      RunIsJustified(s', rest, asked', seen');
      assert asked' + EverAsked(rest) == asked + EverAsked(events);
      MoreIsKnown(Waits.Run(s', rest), asked' + EverAsked(rest), seen' + EverUp(s', rest),
                  asked + EverAsked(events), seen + EverUp(s, events));
    }
  }

  /** No spurious wakeup. Over every interleaving, a token that is called back asked to wait
      for some signal that has been up on that facet. */
  lemma NoSpuriousWakeup(levels: seq<Signals>, threads: nat, events: seq<Event>, token: nat)
    requires token in Waits.Run(Idle(levels, threads), events).notified
    ensures HasCause(token, EverAsked(events), EverUp(Idle(levels, threads), events))
  {
    var s := Idle(levels, threads);
    RunIsJustified(s, events, {}, UpNow(levels));
    assert {} + EverAsked(events) == EverAsked(events);
    assert UpNow(levels) + EverUp(s, events) == EverUp(s, events);
  }
}
