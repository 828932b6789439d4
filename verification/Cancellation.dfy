/** A wait that was cancelled, or that failed, is over for good. */
module Cancellation {
  import opened Waits
  import opened Wakeups

  /** Whenever the token is registered, it is for these items. */
  predicate AlwaysFor(events: seq<Event>, token: nat, items: seq<WaitItem>)
  {
    forall i :: 0 <= i < |events| && events[i].StartWait? && events[i].token == token ==> events[i].items == items
  }

  predicate NeverStarts(events: seq<Event>, token: nat)
  {
    forall i :: 0 <= i < |events| ==> !(events[i].StartWait? && events[i].token == token)
  }

  ghost predicate RegistersFor(task: Task, token: nat, items: seq<WaitItem>)
  {
    task.Register? && task.token == token ==> task.done + task.todo == items
  }

  ghost predicate AllFor(tasks: seq<Task>, token: nat, items: seq<WaitItem>)
  {
    forall i :: 0 <= i < |tasks| ==> RegistersFor(tasks[i], token, items)
  }

  /** Every registration of the token, under way or complete, is for these items. */
  ghost predicate WaitsFor(s: System, token: nat, items: seq<WaitItem>)
  {
    && Shaped(s) && (forall t :: 0 <= t < |s.threads| ==> AllFor(s.threads[t], token, items))
    && (token in s.waiting ==> s.waiting[token] == items)
  }

  lemma ThreadKeepsWaitsFor(s: System, s': System, t: nat, tasks: seq<Task>, token: nat, items: seq<WaitItem>)
    requires WaitsFor(s, token, items) && t < |s.threads| && AllFor(tasks, token, items)
    requires Shaped(s') && s'.threads == s.threads[t := tasks]
    requires token in s'.waiting ==> s'.waiting[token] == items
    ensures WaitsFor(s', token, items)
  {
  }

  lemma RegisterKeepsWaitsFor(
    s: System, t: nat, task: Task, rest: seq<Task>, failing: bool, token: nat, items: seq<WaitItem>)
    requires WaitsFor(s, token, items) && t < |s.threads| && AllFor(rest, token, items)
    requires task.Register? && RegistersFor(task, token, items)
    ensures
      var after :=
        if task.todo == [] then FinishRegister(s, t, task, rest) else RegisterItem(s, t, task, rest, failing);
      WaitsFor(after, token, items)
  {
    if task.todo == [] {
      assert task.done + task.todo == task.done;
      var tasks := (if task.ready then [Callback(task.token)] else []) + rest;
      ThreadKeepsWaitsFor(s, FinishRegister(s, t, task, rest), t, tasks, token, items);
    } else {
      assert (task.done + [task.todo[0]]) + task.todo[1..] == task.done + task.todo;
      var after := RegisterItem(s, t, task, rest, failing);
      ThreadKeepsWaitsFor(s, after, t, after.threads[t], token, items);
    }
  }

  lemma HeadKeepsWaitsFor(s: System, t: nat, failing: bool, token: nat, items: seq<WaitItem>)
    requires WaitsFor(s, token, items) && t < |s.threads| && s.threads[t] != []
    ensures WaitsFor(RunHead(s, t, failing), token, items)
  {
    var task, rest := s.threads[t][0], s.threads[t][1..];
    assert RegistersFor(task, token, items) && AllFor(rest, token, items);
    if task.Register? {
      RegisterKeepsWaitsFor(s, t, task, rest, failing, token, items);
    } else {
      var after := RunHead(s, t, failing);
      ThreadKeepsWaitsFor(s, after, t, after.threads[t], token, items);
    }
  }

  lemma StepKeepsWaitsFor(s: System, e: Event, token: nat, items: seq<WaitItem>)
    requires WaitsFor(s, token, items) && (e.StartWait? && e.token == token ==> e.items == items)
    ensures WaitsFor(Step(s, e), token, items)
  {
    if e.RunTask? {
      if e.t < |s.threads| && s.threads[e.t] != [] { HeadKeepsWaitsFor(s, e.t, e.failing, token, items); }
    } else if e.t < |s.threads| {
      var after := Step(s, e);
      ThreadKeepsWaitsFor(s, after, e.t, after.threads[e.t], token, items);
    }
  }

  lemma {:induction false} RunKeepsWaitsFor(s: System, events: seq<Event>, token: nat, items: seq<WaitItem>)
    requires WaitsFor(s, token, items) && AlwaysFor(events, token, items)
    ensures WaitsFor(Waits.Run(s, events), token, items)
    decreases |events|
  {
    if events != [] {
      StepKeepsWaitsFor(s, events[0], token, items);
      RunKeepsWaitsFor(Step(s, events[0]), events[1..], token, items);
    }
  }

  ghost predicate HasRecord(s: System, token: nat, f: nat)
  {
    f < |s.waiters| && exists w :: w in s.waiters[f] && w.token == token
  }

  predicate IsRegistering(task: Task, token: nat) { task.Register? && task.token == token }

  predicate Removes(task: Task, token: nat, f: nat) { task.Unregister? && task.token == token && f in task.facets }

  ghost predicate Registering(s: System, token: nat)
  {
    exists t, i :: 0 <= t < |s.threads| && 0 <= i < |s.threads[t]| && IsRegistering(s.threads[t][i], token)
  }

  /** Some thread is about to remove whatever the token has on the facet. */
  ghost predicate Doomed(s: System, token: nat, f: nat)
  {
    exists t, i :: 0 <= t < |s.threads| && 0 <= i < |s.threads[t]| && Removes(s.threads[t][i], token, f)
  }

  /** The token is on its way out: all that is still retained for it is about to be removed. */
  ghost predicate Leaving(s: System, token: nat)
  {
    Shaped(s) && !Registering(s, token) && forall f: nat :: HasRecord(s, token, f) ==> Doomed(s, token, f)
  }

  lemma DoomStays(s: System, s': System, t: nat, tasks: seq<Task>, token: nat, f: nat)
    requires t < |s.threads| && s'.threads == s.threads[t := tasks] && Doomed(s, token, f)
    requires (exists i :: 0 <= i < |s.threads[t]| && Removes(s.threads[t][i], token, f)) ==>
      exists j :: 0 <= j < |tasks| && Removes(tasks[j], token, f)
    ensures Doomed(s', token, f)
  {
    var u, i :| 0 <= u < |s.threads| && 0 <= i < |s.threads[u]| && Removes(s.threads[u][i], token, f);
    if u == t {
      var j :| 0 <= j < |tasks| && Removes(tasks[j], token, f);
      assert Removes(s'.threads[t][j], token, f);
    } else {
      assert Removes(s'.threads[u][i], token, f);
    }
  }

  lemma NobodyRegisters(s: System, s': System, t: nat, tasks: seq<Task>, token: nat)
    requires t < |s.threads| && s'.threads == s.threads[t := tasks] && !Registering(s, token)
    requires forall j :: 0 <= j < |tasks| ==> !IsRegistering(tasks[j], token)
    ensures !Registering(s', token)
  {
  }

  /** The head task gives way to others that do not register the token; what the token still
      has was there before, and is not what the head alone would have removed. */
  lemma HeadGivesWay(s: System, s': System, t: nat, first: seq<Task>, token: nat)
    requires Leaving(s, token) && Shaped(s') && t < |s.threads| && s.threads[t] != []
    requires s'.threads == s.threads[t := first + s.threads[t][1..]]
    requires forall j :: 0 <= j < |first| ==> !IsRegistering(first[j], token)
    requires forall f: nat :: HasRecord(s', token, f) ==> HasRecord(s, token, f)
    requires forall f: nat :: HasRecord(s', token, f) && Removes(s.threads[t][0], token, f) ==>
      exists j :: 0 <= j < |first| && Removes(first[j], token, f)
    ensures Leaving(s', token)
  {
    var old', tasks := s.threads[t], first + s.threads[t][1..];
    forall j | 0 <= j < |tasks| ensures !IsRegistering(tasks[j], token) {
      if j >= |first| { assert tasks[j] == old'[j - |first| + 1]; }
    }
    NobodyRegisters(s, s', t, tasks, token);
    forall f: nat | HasRecord(s', token, f) ensures Doomed(s', token, f) {
      if i :| 0 <= i < |old'| && Removes(old'[i], token, f) {
        if i > 0 {
          assert tasks[|first| + i - 1] == old'[i];
        } else {
          var j :| 0 <= j < |first| && Removes(first[j], token, f);
          assert tasks[j] == first[j];
        }
      }
      DoomStays(s, s', t, tasks, token, f);
    }
  }

  lemma HeadGoes(s: System, s': System, t: nat, token: nat)
    requires Leaving(s, token) && Shaped(s') && t < |s.threads| && s.threads[t] != []
    requires s'.threads == s.threads[t := s.threads[t][1..]]
    requires forall f: nat :: HasRecord(s', token, f) ==> HasRecord(s, token, f) && !Removes(s.threads[t][0], token, f)
    ensures Leaving(s', token)
  {
    assert [] + s.threads[t][1..] == s.threads[t][1..];
    HeadGivesWay(s, s', t, [], token);
  }

  /** One list changes, and keeps no record of the token that was not there. */
  lemma RecordsStay(s: System, s': System, f: nat, ws: seq<Waiter>, token: nat)
    requires f < |s.waiters| && s'.waiters == s.waiters[f := ws]
    requires forall w :: w in ws && w.token == token ==> HasRecord(s, token, f)
    ensures forall g: nat :: HasRecord(s', token, g) ==> HasRecord(s, token, g)
  {
  }

  lemma MarkLeaves(s: System, t: nat, f: nat, token: nat)
    requires Leaving(s, token) && t < |s.threads| && s.threads[t] != [] && s.threads[t][0] == Mark(f)
    ensures Leaving(RunHead(s, t, false), token)
  {
    if f < |s.waiters| {
      var ws := Marked(s.waiters[f], s.levels[f]);
      forall w | w in ws && w.token == token ensures HasRecord(s, token, f) {
        var i :| 0 <= i < |ws| && ws[i] == w;
        assert s.waiters[f][i] in s.waiters[f];
      }
      RecordsStay(s, RunHead(s, t, false), f, ws, token);
      HeadGivesWay(s, RunHead(s, t, false), t, [Deliver(f)], token);
    } else {
      HeadGoes(s, RunHead(s, t, false), t, token);
    }
  }

  lemma DeliverLeaves(s: System, t: nat, f: nat, token: nat)
    requires Leaving(s, token) && t < |s.threads| && s.threads[t] != [] && s.threads[t][0] == Deliver(f)
    ensures Leaving(RunHead(s, t, false), token)
  {
    var s' := RunHead(s, t, false);
    if f < |s.waiters| && FirstNotifying(s.waiters[f]).Some? {
      var ws, i := s.waiters[f], FirstNotifying(s.waiters[f]).value;
      forall w | w in SwapRemove(ws, i) ensures w in ws {}
      RecordsStay(s, s', f, SwapRemove(ws, i), token);
      HeadGivesWay(s, s', t, [Callback(ws[i].token), Deliver(f)], token);
    } else {
      HeadGoes(s, s', t, token);
    }
  }

  lemma RegisterLeaves(s: System, t: nat, failing: bool, token: nat)
    requires Leaving(s, token) && t < |s.threads| && s.threads[t] != [] && s.threads[t][0].Register?
    ensures Leaving(RunHead(s, t, failing), token)
  {
    var task, s' := s.threads[t][0], RunHead(s, t, failing);
    assert task.token != token by { assert !IsRegistering(task, token); }
    if task.todo == [] {
      HeadGivesWay(s, s', t, if task.ready then [Callback(task.token)] else [], token);
    } else {
      var item := task.todo[0];
      if s'.waiters != s.waiters {
        var ws := s.waiters[item.facet] + [Waiter(s.nextId, task.token, item.waitFor, false)];
        RecordsStay(s, s', item.facet, ws, token);
      }
      HeadGivesWay(s, s', t, [s'.threads[t][0]], token);
    }
  }

  lemma UnregisterLeaves(s: System, t: nat, token: nat)
    requires Leaving(s, token) && t < |s.threads| && s.threads[t] != [] && s.threads[t][0].Unregister?
    ensures Leaving(RunHead(s, t, false), token)
  {
    var task, s' := s.threads[t][0], RunHead(s, t, false);
    if task.facets == [] {
      HeadGoes(s, s', t, token);
    } else {
      var f, next := task.facets[0], Unregister(task.token, task.facets[1..]);
      if f < |s.waiters| {
        WithoutIsExact(s.waiters[f], task.token);
        RecordsStay(s, s', f, Without(s.waiters[f], task.token), token);
        if task.token == token { assert !HasRecord(s', token, f); }
      }
      forall g: nat | HasRecord(s', token, g) && Removes(task, token, g) ensures Removes([next][0], token, g) {}
      HeadGivesWay(s, s', t, [next], token);
    }
  }

  lemma HeadLeaves(s: System, t: nat, failing: bool, token: nat)
    requires Leaving(s, token) && t < |s.threads| && s.threads[t] != []
    ensures Leaving(RunHead(s, t, failing), token)
  {
    match s.threads[t][0]
    case Mark(f) => MarkLeaves(s, t, f, token);
    case Deliver(f) => DeliverLeaves(s, t, f, token);
    case Callback(_) => HeadGoes(s, RunHead(s, t, failing), t, token);
    case Register(_, _, _, _) => RegisterLeaves(s, t, failing, token);
    case Unregister(_, _) => UnregisterLeaves(s, t, token);
  }

  /** More tasks in front change nothing, unless they register the token. */
  lemma PrependedLeaves(s: System, s': System, t: nat, first: seq<Task>, token: nat)
    requires Leaving(s, token) && Shaped(s') && t < |s.threads| && s'.waiters == s.waiters
    requires s'.threads == s.threads[t := first + s.threads[t]]
    requires forall j :: 0 <= j < |first| ==> !IsRegistering(first[j], token)
    ensures Leaving(s', token)
  {
    var tasks := first + s.threads[t];
    forall j | 0 <= j < |tasks| ensures !IsRegistering(tasks[j], token) {
      if j >= |first| { assert tasks[j] == s.threads[t][j - |first|]; }
    }
    NobodyRegisters(s, s', t, tasks, token);
    forall f: nat | HasRecord(s', token, f) ensures Doomed(s', token, f) {
      assert HasRecord(s, token, f);
      if i :| 0 <= i < |s.threads[t]| && Removes(s.threads[t][i], token, f) {
        assert tasks[|first| + i] == s.threads[t][i];
      }
      DoomStays(s, s', t, tasks, token, f);
    }
  }

  lemma StepLeaves(s: System, e: Event, token: nat)
    requires Leaving(s, token) && !(e.StartWait? && e.token == token)
    ensures Leaving(Step(s, e), token)
  {
    match e
    case Mutate(t, levels, notify) =>
      if t < |s.threads| && RaisesOnly(s.levels, levels, notify) {
        PrependedLeaves(s, Step(s, e), t, Marks(notify), token);
      }
    case StartWait(t, other, items) =>
      if t < |s.threads| { PrependedLeaves(s, Step(s, e), t, [Register(other, [], items, false)], token); }
    case CancelWait(t, other) =>
      if t < |s.threads| && other in s.waiting {
        PrependedLeaves(s, Step(s, e), t, [Unregister(other, Facets(s.waiting[other]))], token);
      }
    case RunTask(t, failing) => if t < |s.threads| && s.threads[t] != [] { HeadLeaves(s, t, failing, token); }
  }

  lemma {:induction false} RunLeaves(s: System, events: seq<Event>, token: nat)
    requires Leaving(s, token) && NeverStarts(events, token)
    ensures Leaving(Waits.Run(s, events), token)
    decreases |events|
  {
    if events != [] {
      StepLeaves(s, events[0], token);
      RunLeaves(Step(s, events[0]), events[1..], token);
    }
  }

  // ------------------------------------------------------------------ silence

  predicate Hushed(task: Task, token: nat) { !((task.Callback? || task.Register?) && task.token == token) }

  predicate AllHushed(tasks: seq<Task>, token: nat)
  {
    forall i :: 0 <= i < |tasks| ==> Hushed(tasks[i], token)
  }

  /** Nothing anywhere leads to a callback of the token. */
  ghost predicate Silent(s: System, token: nat)
  {
    && Shaped(s) && (forall t :: 0 <= t < |s.threads| ==> AllHushed(s.threads[t], token))
    && forall f: nat :: !HasRecord(s, token, f)
  }

  lemma ThreadKeepsSilent(s: System, s': System, t: nat, tasks: seq<Task>, token: nat)
    requires Silent(s, token) && Shaped(s') && t < |s.threads| && s'.threads == s.threads[t := tasks]
    requires AllHushed(tasks, token) && forall f: nat :: HasRecord(s', token, f) ==> HasRecord(s, token, f)
    ensures Silent(s', token)
  {
  }

  lemma HeadKeepsSilent(s: System, t: nat, failing: bool, token: nat)
    requires Silent(s, token) && t < |s.threads| && s.threads[t] != []
    ensures Silent(RunHead(s, t, failing), token)
    ensures token in RunHead(s, t, failing).notified <==> token in s.notified
  {
    var task, rest, s' := s.threads[t][0], s.threads[t][1..], RunHead(s, t, failing);
    assert Hushed(task, token) && AllHushed(rest, token);
    match task
    case Mark(f) =>
      if f < |s.waiters| {
        var ws := Marked(s.waiters[f], s.levels[f]);
        forall w | w in ws && w.token == token ensures HasRecord(s, token, f) {
          var i :| 0 <= i < |ws| && ws[i] == w;
          assert s.waiters[f][i] in s.waiters[f];
        }
        RecordsStay(s, s', f, ws, token);
      }
      ThreadKeepsSilent(s, s', t, s'.threads[t], token);
    case Deliver(f) =>
      if f < |s.waiters| && FirstNotifying(s.waiters[f]).Some? {
        var ws, i := s.waiters[f], FirstNotifying(s.waiters[f]).value;
        assert ws[i] in ws;
        forall w | w in SwapRemove(ws, i) ensures w in ws {}
        RecordsStay(s, s', f, SwapRemove(ws, i), token);
        assert ws[i].token != token by { assert !HasRecord(s, token, f); }
      }
      ThreadKeepsSilent(s, s', t, s'.threads[t], token);
    case Callback(_) => ThreadKeepsSilent(s, s', t, rest, token);
    case Register(_, _, todo, _) =>
      if s'.waiters != s.waiters {
        var item := todo[0];
        var ws := s.waiters[item.facet] + [Waiter(s.nextId, task.token, item.waitFor, false)];
        RecordsStay(s, s', item.facet, ws, token);
      }
      ThreadKeepsSilent(s, s', t, s'.threads[t], token);
    case Unregister(other, facets) =>
      if facets != [] && facets[0] < |s.waiters| {
        WithoutIsExact(s.waiters[facets[0]], other);
        RecordsStay(s, s', facets[0], Without(s.waiters[facets[0]], other), token);
      }
      ThreadKeepsSilent(s, s', t, s'.threads[t], token);
  }

  lemma StepKeepsSilent(s: System, e: Event, token: nat)
    requires Silent(s, token) && !(e.StartWait? && e.token == token)
    ensures Silent(Step(s, e), token) && (token in Step(s, e).notified <==> token in s.notified)
  {
    if e.RunTask? {
      if e.t < |s.threads| && s.threads[e.t] != [] { HeadKeepsSilent(s, e.t, e.failing, token); }
    } else if e.t < |s.threads| {
      var s' := Step(s, e);
      forall f: nat | HasRecord(s', token, f) ensures HasRecord(s, token, f) { assert s'.waiters == s.waiters; }
      ThreadKeepsSilent(s, s', e.t, s'.threads[e.t], token);
    }
  }

  lemma {:induction false} RunKeepsSilent(s: System, events: seq<Event>, token: nat)
    requires Silent(s, token) && NeverStarts(events, token)
    ensures token in Waits.Run(s, events).notified <==> token in s.notified
    decreases |events|
  {
    if events != [] {
      StepKeepsSilent(s, events[0], token);
      RunKeepsSilent(Step(s, events[0]), events[1..], token);
    }
  }

  /** No task about the token is left. */
  predicate Settled(s: System, token: nat)
  {
    forall t, i :: 0 <= t < |s.threads| && 0 <= i < |s.threads[t]| ==>
      Hushed(s.threads[t][i], token) && !(s.threads[t][i].Unregister? && s.threads[t][i].token == token)
  }

  lemma SettledIsSilent(s: System, token: nat)
    requires Leaving(s, token) && Settled(s, token)
    ensures Silent(s, token)
  {
    forall f: nat ensures !Doomed(s, token, f) {}
  }

  lemma {:induction false} AskedIsListed(events: seq<Event>, token: nat, items: seq<WaitItem>, item: WaitItem)
    requires AlwaysFor(events, token, items) && (token, item) in EverAsked(events)
    ensures item in items
  {
    if (token, item) !in AskedBy(events[0]) { AskedIsListed(events[1..], token, items, item); }
  }

  /** Cancelling a finished registration dooms everything it retained. */
  lemma CancelStartsLeaving(s: System, t: nat, token: nat, items: seq<WaitItem>, asked: Asked, seen: Seen)
    requires WaitsFor(s, token, items) && Justified(s, asked, seen) && !Registering(s, token)
    requires token in s.waiting && t < |s.threads| && forall item :: (token, item) in asked ==> item in items
    ensures Leaving(Step(s, CancelWait(t, token)), token)
  {
    var s', first := Step(s, CancelWait(t, token)), Unregister(token, Facets(items));
    var tasks := [first] + s.threads[t];
    forall j | 0 <= j < |tasks| ensures !IsRegistering(tasks[j], token) {
      if j > 0 { assert tasks[j] == s.threads[t][j - 1]; }
    }
    NobodyRegisters(s, s', t, tasks, token);
    forall f: nat | HasRecord(s', token, f) ensures Doomed(s', token, f) {
      var w :| w in s.waiters[f] && w.token == token;
      assert RecordOk(f, w, asked, seen);
      var i :| 0 <= i < |items| && items[i] == WaitItem(f, w.waitFor);
      assert Facets(items)[i] == f;
      assert Removes(s'.threads[t][0], token, f);
    }
  }

  /** Cancelling is final. Once a wait that was registered has been cancelled and the
      cancellation has run, its token is never called back again, whatever the other
      threads do, unless somebody waits with it anew. */
  lemma CancelledIsSilent(levels: seq<Signals>, threads: nat, before: seq<Event>, t: nat, during: seq<Event>,
                          later: seq<Event>, token: nat, items: seq<WaitItem>)
    requires AlwaysFor(before, token, items) && NeverStarts(during, token) && NeverStarts(later, token)
    requires
      var s := Waits.Run(Idle(levels, threads), before);
      token in s.waiting && !Registering(s, token) && t < |s.threads| && Shaped(s)
    requires
      var s := Waits.Run(Idle(levels, threads), before);
      Settled(Waits.Run(Step(s, CancelWait(t, token)), during), token)
    ensures
      var s := Waits.Run(Idle(levels, threads), before);
      var cancelled := Waits.Run(Step(s, CancelWait(t, token)), during);
      token in Waits.Run(cancelled, later).notified <==> token in cancelled.notified
  {
    var start := Idle(levels, threads);
    var s := Waits.Run(start, before);
    RunKeepsWaitsFor(start, before, token, items);
    RunIsJustified(start, before, {}, UpNow(levels));
    forall item | (token, item) in {} + EverAsked(before) ensures item in items {
      AskedIsListed(before, token, items, item);
    }
    CancelStartsLeaving(s, t, token, items, {} + EverAsked(before), UpNow(levels) + EverUp(start, before));
    var cancelled := Waits.Run(Step(s, CancelWait(t, token)), during);
    RunLeaves(Step(s, CancelWait(t, token)), during, token);
    SettledIsSilent(cancelled, token);
    RunKeepsSilent(cancelled, later, token);
  }

  // ------------------------------------------------------- failed registrations

  /** The task knows of what the token may have on the facet. */
  predicate Accounts(task: Task, token: nat, f: nat)
  {
    Removes(task, token, f) || (IsRegistering(task, token) && f in Facets(task.done))
  }

  ghost predicate AccountedAt(s: System, token: nat, f: nat)
  {
    || (token in s.waiting && f in Facets(s.waiting[token]))
    || exists t, i :: 0 <= t < |s.threads| && 0 <= i < |s.threads[t]| && Accounts(s.threads[t][i], token, f)
  }

  /** All that is retained for the token is known to a registration, complete or under way,
      or about to be removed. */
  ghost predicate Accounted(s: System, token: nat)
  {
    Shaped(s) && forall f: nat :: HasRecord(s, token, f) ==> AccountedAt(s, token, f)
  }

  lemma AccountStays(s: System, s': System, t: nat, first: seq<Task>, n: nat, token: nat, f: nat)
    requires t < |s.threads| && n <= |s.threads[t]| && n <= 1
    requires s'.threads == s.threads[t := first + s.threads[t][n..]] && AccountedAt(s, token, f)
    requires token in s.waiting ==> token in s'.waiting && s'.waiting[token] == s.waiting[token]
    requires n == 1 && Accounts(s.threads[t][0], token, f) ==>
      || (token in s'.waiting && f in Facets(s'.waiting[token]))
      || exists j :: 0 <= j < |first| && Accounts(first[j], token, f)
    ensures AccountedAt(s', token, f)
  {
    var tasks := first + s.threads[t][n..];
    if !(token in s'.waiting && f in Facets(s'.waiting[token])) {
      var u, i :| 0 <= u < |s.threads| && 0 <= i < |s.threads[u]| && Accounts(s.threads[u][i], token, f);
      if u != t {
        assert Accounts(s'.threads[u][i], token, f);
      } else if i >= n {
        assert tasks[|first| + i - n] == s.threads[t][i];
        assert Accounts(s'.threads[t][|first| + i - n], token, f);
      } else {
        var j :| 0 <= j < |first| && Accounts(first[j], token, f);
        assert tasks[j] == first[j];
        assert Accounts(s'.threads[t][j], token, f);
      }
    }
  }

  /** As `AccountStays`, for all facets at once. */
  lemma StepAccounts(s: System, s': System, t: nat, first: seq<Task>, n: nat, token: nat)
    requires Accounted(s, token) && Shaped(s') && t < |s.threads| && n <= |s.threads[t]| && n <= 1
    requires s'.threads == s.threads[t := first + s.threads[t][n..]]
    requires token in s.waiting ==> token in s'.waiting && s'.waiting[token] == s.waiting[token]
    requires forall f: nat :: HasRecord(s', token, f) ==>
      HasRecord(s, token, f) || exists j :: 0 <= j < |first| && Accounts(first[j], token, f)
    requires forall f: nat :: HasRecord(s', token, f) && n == 1 && Accounts(s.threads[t][0], token, f) ==>
      || (token in s'.waiting && f in Facets(s'.waiting[token]))
      || exists j :: 0 <= j < |first| && Accounts(first[j], token, f)
    ensures Accounted(s', token)
  {
    var tasks := first + s.threads[t][n..];
    forall f: nat | HasRecord(s', token, f) ensures AccountedAt(s', token, f) {
      if j :| 0 <= j < |first| && Accounts(first[j], token, f) {
        assert tasks[j] == first[j];
        assert Accounts(s'.threads[t][j], token, f);
      } else {
        AccountStays(s, s', t, first, n, token, f);
      }
    }
  }

  lemma FacetsGrow(done: seq<WaitItem>, item: WaitItem)
    ensures forall f :: f in Facets(done + [item]) <==> f in Facets(done) || f == item.facet
  {
    assert Facets(done + [item]) == Facets(done) + [item.facet];
  }

  lemma RegisterAccounts(s: System, t: nat, failing: bool, token: nat, items: seq<WaitItem>)
    requires Accounted(s, token) && WaitsFor(s, token, items) && t < |s.threads| && s.threads[t] != []
    requires s.threads[t][0].Register?
    ensures Accounted(RunHead(s, t, failing), token)
  {
    var task, s' := s.threads[t][0], RunHead(s, t, failing);
    assert RegistersFor(task, token, items);
    if task.todo == [] {
      assert task.done + task.todo == task.done;
      StepAccounts(s, s', t, if task.ready then [Callback(task.token)] else [], 1, token);
    } else {
      var item := task.todo[0];
      FacetsGrow(task.done, item);
      var first := s'.threads[t][0];
      assert forall f: nat :: Accounts(task, token, f) ==> Accounts([first][0], token, f);
      if s'.waiters != s.waiters {
        var ws := s.waiters[item.facet] + [Waiter(s.nextId, task.token, item.waitFor, false)];
        forall f: nat | HasRecord(s', token, f) && !HasRecord(s, token, f) ensures Accounts([first][0], token, f) {
          assert f == item.facet && task.token == token;
        }
      }
      StepAccounts(s, s', t, [first], 1, token);
    }
  }

  lemma HeadAccounts(s: System, t: nat, failing: bool, token: nat, items: seq<WaitItem>)
    requires Accounted(s, token) && WaitsFor(s, token, items) && t < |s.threads| && s.threads[t] != []
    ensures Accounted(RunHead(s, t, failing), token)
  {
    var s', rest := RunHead(s, t, failing), s.threads[t][1..];
    assert [] + rest == rest;
    match s.threads[t][0]
    case Mark(f) =>
      if f < |s.waiters| {
        var ws := Marked(s.waiters[f], s.levels[f]);
        forall w | w in ws && w.token == token ensures HasRecord(s, token, f) {
          var i :| 0 <= i < |ws| && ws[i] == w;
          assert s.waiters[f][i] in s.waiters[f];
        }
        RecordsStay(s, s', f, ws, token);
        StepAccounts(s, s', t, [Deliver(f)], 1, token);
      } else {
        StepAccounts(s, s', t, [], 1, token);
      }
    case Deliver(f) =>
      if f < |s.waiters| && FirstNotifying(s.waiters[f]).Some? {
        var ws, i := s.waiters[f], FirstNotifying(s.waiters[f]).value;
        forall w | w in SwapRemove(ws, i) ensures w in ws {}
        RecordsStay(s, s', f, SwapRemove(ws, i), token);
        StepAccounts(s, s', t, [Callback(ws[i].token), Deliver(f)], 1, token);
      } else {
        StepAccounts(s, s', t, [], 1, token);
      }
    case Callback(_) => StepAccounts(s, s', t, [], 1, token);
    case Register(_, _, _, _) => RegisterAccounts(s, t, failing, token, items);
    case Unregister(other, facets) =>
      if facets == [] {
        StepAccounts(s, s', t, [], 1, token);
      } else {
        var f, next := facets[0], Unregister(other, facets[1..]);
        if f < |s.waiters| {
          WithoutIsExact(s.waiters[f], other);
          RecordsStay(s, s', f, Without(s.waiters[f], other), token);
        }
        assert other == token ==> !HasRecord(s', token, f);
        forall g: nat | HasRecord(s', token, g) && Accounts(s.threads[t][0], token, g)
          ensures Accounts([next][0], token, g) {}
        StepAccounts(s, s', t, [next], 1, token);
      }
  }

  lemma EventAccounts(s: System, e: Event, token: nat, items: seq<WaitItem>)
    requires Accounted(s, token) && WaitsFor(s, token, items)
    ensures Accounted(Step(s, e), token)
  {
    if e.RunTask? {
      if e.t < |s.threads| && s.threads[e.t] != [] { HeadAccounts(s, e.t, e.failing, token, items); }
    } else if e.t < |s.threads| && Step(s, e) != s {
      var first :=
        match e
        case Mutate(_, _, notify) => Marks(notify)
        case StartWait(_, other, asked) => [Register(other, [], asked, false)]
        case CancelWait(_, other) => [Unregister(other, Facets(s.waiting[other]))]
        case RunTask(_, _) => [];
      StepAccounts(s, Step(s, e), e.t, first, 0, token);
    }
  }

  lemma {:induction false} RunAccounts(s: System, events: seq<Event>, token: nat, items: seq<WaitItem>)
    requires Accounted(s, token) && WaitsFor(s, token, items) && AlwaysFor(events, token, items)
    ensures Accounted(Waits.Run(s, events), token)
    decreases |events|
  {
    if events != [] {
      EventAccounts(s, events[0], token, items);
      StepKeepsWaitsFor(s, events[0], token, items);
      RunAccounts(Step(s, events[0]), events[1..], token, items);
    }
  }

  /** A registration that failed half-way takes back what it had retained: once that is
      done, its token is never called back, unless somebody waits with it anew. */
  lemma FailedIsSilent(levels: seq<Signals>, threads: nat, before: seq<Event>, later: seq<Event>, token: nat,
                       items: seq<WaitItem>)
    requires AlwaysFor(before, token, items) && NeverStarts(later, token)
    requires
      var s := Waits.Run(Idle(levels, threads), before);
      token !in s.waiting && Settled(s, token)
    ensures
      var s := Waits.Run(Idle(levels, threads), before);
      token in Waits.Run(s, later).notified <==> token in s.notified
  {
    var start := Idle(levels, threads);
    RunAccounts(start, before, token, items);
    var s := Waits.Run(start, before);
    forall f: nat ensures !AccountedAt(s, token, f) {}
    RunKeepsSilent(s, later, token);
  }
}
