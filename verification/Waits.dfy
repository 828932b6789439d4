/** Direct waits: registration, marking and delivery as separately locked steps of
    interleaved threads. */
module Waits {
  import opened Objects
  import opened Channels

  const WAITERS_PER_FACET_LIMIT: nat := 256

  type Signals = set<Signal>

  datatype Waiter = Waiter(id: nat, token: nat, waitFor: Signals, notifying: bool)

  datatype WaitItem = WaitItem(facet: nat, waitFor: Signals)

  // ------------------------------------------------------- one waiter list

  predicate Matches(level: Signals, waitFor: Signals)
  {
    level * waitFor != {}
  }

  function MarkOne(w: Waiter, level: Signals): Waiter
  {
    w.(notifying := w.notifying || Matches(level, w.waitFor))
  }

  function Marked(ws: seq<Waiter>, level: Signals): seq<Waiter>
  {
    seq(|ws|, i requires 0 <= i < |ws| => MarkOne(ws[i], level))
  }

  function FirstNotifying(ws: seq<Waiter>, from: nat := 0): (r: Option<nat>)
    requires from <= |ws|
    ensures r.Some? ==> from <= r.value < |ws| && ws[r.value].notifying
    ensures r.None? ==> forall i :: from <= i < |ws| ==> !ws[i].notifying
    decreases |ws| - from
  {
    if from == |ws| then None else if ws[from].notifying then Some(from) else FirstNotifying(ws, from + 1)
  }

  /** Removes index `i`, filling the hole with the last element. */
  function SwapRemove(ws: seq<Waiter>, i: nat): seq<Waiter>
    requires i < |ws|
  {
    var last := |ws| - 1;
    if i == last then ws[..last] else ws[..last][i := ws[last]]
  }

  function Without(ws: seq<Waiter>, token: nat): seq<Waiter>
  {
    if ws == [] then []
    else (if ws[0].token != token then [ws[0]] else []) + Without(ws[1..], token)
  }

  ghost predicate DistinctIds(ws: seq<Waiter>)
  {
    forall i, j :: 0 <= i < j < |ws| ==> ws[i].id != ws[j].id
  }

  /** Taking a record removes that record and nothing else. */
  lemma SwapRemoveIsExact(ws: seq<Waiter>, i: nat)
    requires i < |ws| && DistinctIds(ws)
    ensures DistinctIds(SwapRemove(ws, i))
    ensures forall w :: w in SwapRemove(ws, i) <==> w in ws && w != ws[i]
  {
    var last := |ws| - 1;
    var r := SwapRemove(ws, i);
    assert forall k :: 0 <= k < last ==> r[k] == ws[if k == i then last else k];
    forall w | w in ws && w != ws[i] ensures w in r {
      var k :| 0 <= k < |ws| && ws[k] == w;
      assert r[if k == last then i else k] == w;
    }
  }

  lemma {:induction false} WithoutIsExact(ws: seq<Waiter>, token: nat)
    ensures forall w :: w in Without(ws, token) <==> w in ws && w.token != token
    ensures DistinctIds(ws) ==> DistinctIds(Without(ws, token))
  {
    if ws != [] {
      WithoutIsExact(ws[1..], token);
      assert ws == [ws[0]] + ws[1..];
      if DistinctIds(ws) {
        assert DistinctIds(ws[1..]);
        var rest := Without(ws[1..], token);
        forall k | 0 <= k < |rest| ensures rest[k].id != ws[0].id {
          assert rest[k] in ws[1..];
        }
      }
    }
  }

  // ---------------------------------------------------------------- machine

  /** What a thread still has to do, next task first. A thread that changes an object owes
      a `Mark` for every side it notifies; a `Mark` turns into a `Deliver`, the loop that
      takes marked records one at a time and calls back in between. */
  datatype Task =
    | Mark(facet: nat)
    | Deliver(facet: nat)
    | Callback(token: nat)
    | Register(token: nat, done: seq<WaitItem>, todo: seq<WaitItem>, ready: bool)
    | Unregister(token: nat, facets: seq<nat>)

  /** `delivered` lists the ids of records handed to a callback, `notified` the tokens
      called back, `waiting` the items of every registration that succeeded, and `dead` the
      tokens whose registration failed or was cancelled. */
  datatype System = System(
    levels: seq<Signals>,
    waiters: seq<seq<Waiter>>,
    threads: seq<seq<Task>>,
    nextId: nat,
    delivered: seq<nat>,
    notified: set<nat>,
    waiting: map<nat, seq<WaitItem>>,
    dead: set<nat>)

  datatype Event =
    | Mutate(t: nat, levels: seq<Signals>, notify: seq<nat>)
    | StartWait(t: nat, token: nat, items: seq<WaitItem>)
    | CancelWait(t: nat, token: nat)
    | RunTask(t: nat, failing: bool)

  function Marks(notify: seq<nat>): seq<Task>
  {
    seq(|notify|, i requires 0 <= i < |notify| => Mark(notify[i]))
  }

  function Facets(items: seq<WaitItem>): seq<nat>
  {
    seq(|items|, i requires 0 <= i < |items| => items[i].facet)
  }

  /** A change may raise signals only on facets it goes on to notify. */
  predicate RaisesOnly(before: seq<Signals>, after: seq<Signals>, notify: seq<nat>)
  {
    |after| == |before| && forall f :: 0 <= f < |before| && !(after[f] <= before[f]) ==> f in notify
  }

  function SetThread(s: System, t: nat, tasks: seq<Task>): System
    requires t < |s.threads|
  {
    s.(threads := s.threads[t := tasks])
  }

  function SetWaiters(s: System, f: nat, ws: seq<Waiter>): System
    requires f < |s.waiters|
  {
    s.(waiters := s.waiters[f := ws])
  }

  predicate Shaped(s: System)
  {
    |s.waiters| == |s.levels|
  }

  function Abandon(s: System, t: nat, task: Task, rest: seq<Task>): System
    requires t < |s.threads| && task.Register?
  {
    SetThread(s, t, [Unregister(task.token, Facets(task.done))] + rest).(dead := s.dead + {task.token})
  }

  function Retained(s: System, t: nat, task: Task, rest: seq<Task>): System
    requires Shaped(s) && t < |s.threads| && task.Register? && task.todo != [] && task.todo[0].facet < |s.waiters|
  {
    var item := task.todo[0];
    var record := Waiter(s.nextId, task.token, item.waitFor, false);
    SetThread(SetWaiters(s, item.facet, s.waiters[item.facet] + [record]), t,
              [Register(task.token, task.done + [item], task.todo[1..], task.ready)] + rest).(nextId := s.nextId + 1)
  }

  /** One registration item under its object's lock: an already-ready facet is not
      retained; an error abandons the registration. */
  function RegisterItem(s: System, t: nat, task: Task, rest: seq<Task>, failing: bool): System
    requires Shaped(s) && t < |s.threads| && task.Register? && task.todo != []
  {
    var item := task.todo[0];
    var next := Register(task.token, task.done + [item], task.todo[1..], task.ready);
    if failing || item.facet >= |s.levels| then Abandon(s, t, task, rest)
    else if Matches(s.levels[item.facet], item.waitFor) then SetThread(s, t, [next.(ready := true)] + rest)
    else if |s.waiters[item.facet]| >= WAITERS_PER_FACET_LIMIT then Abandon(s, t, task, rest)
    else Retained(s, t, task, rest)
  }

  function FinishRegister(s: System, t: nat, task: Task, rest: seq<Task>): System
    requires t < |s.threads| && task.Register?
  {
    SetThread(s, t, (if task.ready then [Callback(task.token)] else []) + rest)
      .(waiting := s.waiting[task.token := task.done])
  }

  function DeliverNext(s: System, t: nat, f: nat, rest: seq<Task>): System
    requires Shaped(s) && t < |s.threads| && f < |s.waiters|
  {
    var found := FirstNotifying(s.waiters[f]);
    if found.None? then SetThread(s, t, rest)
    else
      var record := s.waiters[f][found.value];
      SetThread(SetWaiters(s, f, SwapRemove(s.waiters[f], found.value)), t, [Callback(record.token), Deliver(f)] + rest)
        .(delivered := s.delivered + [record.id])
  }

  function UnregisterNext(s: System, t: nat, task: Task, rest: seq<Task>): System
    requires Shaped(s) && t < |s.threads| && task.Unregister?
  {
    if task.facets == [] then SetThread(s, t, rest)
    else
      var f := task.facets[0];
      var s1 := if f < |s.waiters| then SetWaiters(s, f, Without(s.waiters[f], task.token)) else s;
      SetThread(s1, t, [Unregister(task.token, task.facets[1..])] + rest)
  }

  function RunHead(s: System, t: nat, failing: bool): System
    requires Shaped(s) && t < |s.threads| && s.threads[t] != []
  {
    var task := s.threads[t][0];
    var rest := s.threads[t][1..];
    match task
    case Mark(f) =>
      if f < |s.waiters|
      then SetThread(SetWaiters(s, f, Marked(s.waiters[f], s.levels[f])), t, [Deliver(f)] + rest)
      else SetThread(s, t, rest)
    case Deliver(f) => if f < |s.waiters| then DeliverNext(s, t, f, rest) else SetThread(s, t, rest)
    case Callback(token) => SetThread(s, t, rest).(notified := s.notified + {token})
    case Register(token, done, todo, ready) =>
      if todo == [] then FinishRegister(s, t, task, rest) else RegisterItem(s, t, task, rest, failing)
    case Unregister(token, facets) => UnregisterNext(s, t, task, rest)
  }

  /** Any thread may take any step at any time: change an object (also from inside a
      callback), start or cancel a wait, or run its next task. */
  function Step(s: System, e: Event): System
    requires Shaped(s)
  {
    match e
    case Mutate(t, levels, notify) =>
      if t < |s.threads| && RaisesOnly(s.levels, levels, notify)
      then SetThread(s, t, Marks(notify) + s.threads[t]).(levels := levels) else s
    case StartWait(t, token, items) =>
      if t < |s.threads| then SetThread(s, t, [Register(token, [], items, false)] + s.threads[t]) else s
    case CancelWait(t, token) =>
      if t < |s.threads| && token in s.waiting
      then SetThread(s, t, [Unregister(token, Facets(s.waiting[token]))] + s.threads[t]).(dead := s.dead + {token})
      else s
    case RunTask(t, failing) =>
      if t < |s.threads| && s.threads[t] != [] then RunHead(s, t, failing) else s
  }

  // -------------------------------------------------------------- invariant

  ghost predicate Owed(s: System, task: Task)
  {
    exists t :: 0 <= t < |s.threads| && task in s.threads[t]
  }

  /** A retained record whose signals are up is marked, or someone still owes the mark;
      a marked record has a delivery loop under way. */
  ghost predicate NoLostMark(s: System)
    requires Shaped(s)
  {
    forall f, w :: 0 <= f < |s.waiters| && w in s.waiters[f] ==>
      if w.notifying then Owed(s, Deliver(f)) else Matches(s.levels[f], w.waitFor) ==> Owed(s, Mark(f))
  }

  function Ids(ws: seq<Waiter>): set<nat>
  {
    set w | w in ws :: w.id
  }

  ghost predicate Undelivered(s: System, ids: set<nat>)
  {
    forall id :: id in ids ==> id < s.nextId && id !in s.delivered
  }

  /** Records have distinct ids; a delivered record is retained nowhere and was delivered once. */
  ghost predicate OnceOnly(s: System)
  {
    && (forall f :: 0 <= f < |s.waiters| ==> DistinctIds(s.waiters[f]) && Undelivered(s, Ids(s.waiters[f])))
    && (forall f, g :: 0 <= f < g < |s.waiters| ==> Ids(s.waiters[f]) !! Ids(s.waiters[g]))
    && (forall i :: 0 <= i < |s.delivered| ==> s.delivered[i] < s.nextId)
    && (forall i, j :: 0 <= i < j < |s.delivered| ==> s.delivered[i] != s.delivered[j])
  }

  /** The item is still retained, or its owner has been or is about to be called back. */
  ghost predicate Covered(s: System, token: nat, item: WaitItem)
  {
    || token in s.notified
    || Owed(s, Callback(token))
    || (item.facet < |s.waiters| &&
        exists w :: w in s.waiters[item.facet] && w.token == token && w.waitFor == item.waitFor)
  }

  ghost predicate TaskTracked(s: System, task: Task)
  {
    && (task.Register? && !task.ready && task.token !in s.dead ==>
          forall item :: item in task.done ==> Covered(s, task.token, item))
    && (task.Unregister? ==> task.token in s.dead)
  }

  /** Every item of a registration that is under way or has succeeded is covered. */
  ghost predicate Tracked(s: System)
  {
    && (forall token, item :: token in s.waiting && token !in s.dead && item in s.waiting[token] ==>
          Covered(s, token, item))
    && (forall t, task :: 0 <= t < |s.threads| && task in s.threads[t] ==> TaskTracked(s, task))
  }

  ghost predicate Inv(s: System)
  {
    Shaped(s) && NoLostMark(s) && OnceOnly(s) && Tracked(s)
  }

  // ------------------------------------------------------------ preservation

  /** Tasks other than the one just run stay owed. */
  lemma StillOwed(s: System, s': System, t: nat, tasks: seq<Task>, task: Task)
    requires t < |s.threads| && s'.threads == s.threads[t := tasks]
    requires Owed(s, task) && (task in s.threads[t] ==> task in tasks)
    ensures Owed(s', task)
  {
    var u :| 0 <= u < |s.threads| && task in s.threads[u];
    assert task in s'.threads[if u == t then t else u];
  }

  lemma NowOwed(s': System, t: nat, task: Task)
    requires t < |s'.threads| && task in s'.threads[t]
    ensures Owed(s', task)
  {
  }

  /** `tasks` keeps every owed mark and delivery loop of thread `t`. */
  ghost predicate KeepsDuties(s: System, t: nat, tasks: seq<Task>)
    requires t < |s.threads|
  {
    forall task :: task in s.threads[t] && (task.Mark? || task.Deliver?) ==> task in tasks
  }

  /** No new levels, no new records, no duty dropped: nothing can be lost. */
  lemma MarksKept(s: System, s': System, t: nat, tasks: seq<Task>)
    requires Shaped(s) && Shaped(s') && NoLostMark(s) && s'.levels == s.levels && |s'.waiters| == |s.waiters|
    requires forall f, w :: 0 <= f < |s.waiters| && w in s'.waiters[f] ==> w in s.waiters[f]
    requires t < |s.threads| && s'.threads == s.threads[t := tasks] && KeepsDuties(s, t, tasks)
    ensures NoLostMark(s')
  {
    forall f, w | 0 <= f < |s'.waiters| && w in s'.waiters[f]
      ensures if w.notifying then Owed(s', Deliver(f)) else Matches(s'.levels[f], w.waitFor) ==> Owed(s', Mark(f))
    {
      if Owed(s, Deliver(f)) { StillOwed(s, s', t, tasks, Deliver(f)); }
      if Owed(s, Mark(f)) { StillOwed(s, s', t, tasks, Mark(f)); }
    }
  }

  /** Coverage carries over to every live token. */
  ghost predicate CoverCarries(s: System, s': System)
  {
    forall token, item :: token !in s'.dead && Covered(s, token, item) ==> Covered(s', token, item)
  }

  /** Records are untouched and no callback is dropped. */
  lemma CoverKept(s: System, s': System, t: nat, tasks: seq<Task>)
    requires s'.waiters == s.waiters && s.notified <= s'.notified
    requires t < |s.threads| && s'.threads == s.threads[t := tasks]
    requires forall task :: task in s.threads[t] && task.Callback? ==> task in tasks || task.token in s'.notified
    ensures CoverCarries(s, s')
  {
    forall token, item | token !in s'.dead && Covered(s, token, item) ensures Covered(s', token, item) {
      if Owed(s, Callback(token)) && token !in s'.notified { StillOwed(s, s', t, tasks, Callback(token)); }
    }
  }

  lemma TrackedKept(s: System, s': System, t: nat, tasks: seq<Task>)
    requires Tracked(s) && t < |s.threads| && s'.threads == s.threads[t := tasks]
    requires s.dead <= s'.dead && s'.waiting == s.waiting && CoverCarries(s, s')
    requires forall task :: task in tasks && task !in s.threads[t] ==> TaskTracked(s', task)
    ensures Tracked(s')
  {
    forall u, task | 0 <= u < |s'.threads| && task in s'.threads[u] ensures TaskTracked(s', task) {
      if u != t || task in s.threads[t] { assert TaskTracked(s, task); }
    }
  }

  // -------------------------------------------------------- outside requests

  lemma MutateKeepsInv(s: System, t: nat, levels: seq<Signals>, notify: seq<nat>)
    requires Inv(s) && t < |s.threads| && RaisesOnly(s.levels, levels, notify)
    ensures Inv(Step(s, Mutate(t, levels, notify)))
  {
    var tasks := Marks(notify) + s.threads[t];
    var s' := Step(s, Mutate(t, levels, notify));
    forall f, w | 0 <= f < |s'.waiters| && w in s'.waiters[f]
      ensures if w.notifying then Owed(s', Deliver(f)) else Matches(s'.levels[f], w.waitFor) ==> Owed(s', Mark(f))
    {
      if w.notifying {
        StillOwed(s, s', t, tasks, Deliver(f));
      } else if Matches(levels[f], w.waitFor) {
        if levels[f] <= s.levels[f] {
          assert Matches(s.levels[f], w.waitFor);
          StillOwed(s, s', t, tasks, Mark(f));
        } else {
          var i :| 0 <= i < |notify| && notify[i] == f;
          assert Marks(notify)[i] == Mark(f);
          NowOwed(s', t, Mark(f));
        }
      }
    }
    CoverKept(s, s', t, tasks);
    TrackedKept(s, s', t, tasks);
  }

  lemma StartWaitKeepsInv(s: System, t: nat, token: nat, items: seq<WaitItem>)
    requires Inv(s) && t < |s.threads|
    ensures Inv(Step(s, StartWait(t, token, items)))
  {
    var tasks := [Register(token, [], items, false)] + s.threads[t];
    var s' := Step(s, StartWait(t, token, items));
    MarksKept(s, s', t, tasks);
    CoverKept(s, s', t, tasks);
    TrackedKept(s, s', t, tasks);
  }

  lemma CancelWaitKeepsInv(s: System, t: nat, token: nat)
    requires Inv(s) && t < |s.threads| && token in s.waiting
    ensures Inv(Step(s, CancelWait(t, token)))
  {
    var tasks := [Unregister(token, Facets(s.waiting[token]))] + s.threads[t];
    var s' := Step(s, CancelWait(t, token));
    MarksKept(s, s', t, tasks);
    CoverKept(s, s', t, tasks);
    TrackedKept(s, s', t, tasks);
  }

  // ------------------------------------------------------------------ tasks

  /** Replacing one list by one with no new ids keeps records unique. */
  lemma OnceKept(s: System, s': System, f: nat, ws: seq<Waiter>)
    requires OnceOnly(s) && f < |s.waiters| && s'.waiters == s.waiters[f := ws]
    requires s'.nextId == s.nextId && s'.delivered == s.delivered
    requires DistinctIds(ws) && Ids(ws) <= Ids(s.waiters[f])
    ensures OnceOnly(s')
  {
    assert forall g :: 0 <= g < |s.waiters| ==> Ids(s'.waiters[g]) <= Ids(s.waiters[g]);
  }

  lemma MarkKeepsOnce(s: System, t: nat, f: nat)
    requires Shaped(s) && OnceOnly(s) && t < |s.threads| && s.threads[t] != []
    requires s.threads[t][0] == Mark(f) && f < |s.waiters|
    ensures OnceOnly(RunHead(s, t, false))
  {
    var ws := Marked(s.waiters[f], s.levels[f]);
    forall id | id in Ids(ws) ensures id in Ids(s.waiters[f]) {
      var i :| 0 <= i < |ws| && ws[i].id == id;
      assert s.waiters[f][i] in s.waiters[f];
    }
    OnceKept(s, RunHead(s, t, false), f, ws);
  }

  lemma MarkKeepsMarks(s: System, t: nat, f: nat, rest: seq<Task>)
    requires Inv(s) && t < |s.threads| && s.threads[t] == [Mark(f)] + rest && f < |s.waiters|
    ensures NoLostMark(RunHead(s, t, false))
  {
    var tasks := [Deliver(f)] + rest;
    var s' := RunHead(s, t, false);
    NowOwed(s', t, Deliver(f));
    forall g, w | 0 <= g < |s'.waiters| && w in s'.waiters[g]
      ensures if w.notifying then Owed(s', Deliver(g)) else Matches(s'.levels[g], w.waitFor) ==> Owed(s', Mark(g))
    {
      if g == f {
        var i :| 0 <= i < |s.waiters[f]| && s'.waiters[f][i] == w;
      } else {
        if Owed(s, Deliver(g)) { StillOwed(s, s', t, tasks, Deliver(g)); }
        if Owed(s, Mark(g)) { StillOwed(s, s', t, tasks, Mark(g)); }
      }
    }
  }

  lemma MarkKeepsInv(s: System, t: nat, f: nat, rest: seq<Task>)
    requires Inv(s) && t < |s.threads| && s.threads[t] == [Mark(f)] + rest && f < |s.waiters|
    ensures Inv(RunHead(s, t, false))
  {
    MarkKeepsMarks(s, t, f, rest);
    MarkKeepsOnce(s, t, f);
    MarkCovers(s, t, f, rest);
    TrackedKept(s, RunHead(s, t, false), t, [Deliver(f)] + rest);
  }

  lemma MarkCovers(s: System, t: nat, f: nat, rest: seq<Task>)
    requires Inv(s) && t < |s.threads| && s.threads[t] == [Mark(f)] + rest && f < |s.waiters|
    ensures CoverCarries(s, RunHead(s, t, false))
  {
    var tasks := [Deliver(f)] + rest;
    var s' := RunHead(s, t, false);
    forall token, item | token !in s'.dead && Covered(s, token, item) ensures Covered(s', token, item) {
      if Owed(s, Callback(token)) {
        StillOwed(s, s', t, tasks, Callback(token));
      } else if token !in s.notified {
        var w :| w in s.waiters[item.facet] && w.token == token && w.waitFor == item.waitFor;
        var i :| 0 <= i < |s.waiters[item.facet]| && s.waiters[item.facet][i] == w;
        assert s'.waiters[item.facet][i] in s'.waiters[item.facet];
      }
    }
  }

  lemma CallbackKeepsInv(s: System, t: nat, token: nat, rest: seq<Task>)
    requires Inv(s) && t < |s.threads| && s.threads[t] == [Callback(token)] + rest
    ensures Inv(RunHead(s, t, false))
  {
    var s' := RunHead(s, t, false);
    MarksKept(s, s', t, rest);
    CoverKept(s, s', t, rest);
    TrackedKept(s, s', t, rest);
  }

  /** Dropping a task that is none of the machine's duties. */
  lemma IdleKeepsInv(s: System, t: nat, rest: seq<Task>)
    requires Inv(s) && t < |s.threads| && s.threads[t] != [] && rest == s.threads[t][1..]
    requires match s.threads[t][0]
      case Mark(f) => f >= |s.waiters|
      case Deliver(f) => f >= |s.waiters| || FirstNotifying(s.waiters[f]).None?
      case Unregister(_, facets) => facets == []
      case _ => false
    ensures Inv(SetThread(s, t, rest))
  {
    var head, s' := s.threads[t][0], SetThread(s, t, rest);
    assert s.threads[t] == [head] + rest;
    forall f, w | 0 <= f < |s.waiters| && w in s.waiters[f]
      ensures if w.notifying then Owed(s', Deliver(f)) else Matches(s.levels[f], w.waitFor) ==> Owed(s', Mark(f))
    {
      if w.notifying {
        StillOwed(s, s', t, rest, Deliver(f));
      } else if Matches(s.levels[f], w.waitFor) {
        StillOwed(s, s', t, rest, Mark(f));
      }
    }
    CoverKept(s, s', t, rest);
    TrackedKept(s, s', t, rest);
  }

  lemma TakeKeepsOnce(s: System, t: nat, f: nat, i: nat, rest: seq<Task>)
    requires Shaped(s) && OnceOnly(s) && t < |s.threads| && f < |s.waiters| && FirstNotifying(s.waiters[f]) == Some(i)
    ensures OnceOnly(DeliverNext(s, t, f, rest))
  {
    var id, left := s.waiters[f][i].id, SwapRemove(s.waiters[f], i);
    assert s.waiters[f][i] in s.waiters[f];
    SwapRemoveIsExact(s.waiters[f], i);
    var s1 := SetWaiters(s, f, left);
    OnceKept(s, s1, f, left);
    assert id in Ids(s.waiters[f]);
    assert id !in Ids(left);
    assert forall g :: 0 <= g < |s1.waiters| ==> id !in Ids(s1.waiters[g]);
  }

  lemma TakeCovers(s: System, t: nat, f: nat, i: nat, rest: seq<Task>)
    requires Inv(s) && t < |s.threads| && s.threads[t] == [Deliver(f)] + rest
    requires f < |s.waiters| && FirstNotifying(s.waiters[f]) == Some(i)
    ensures CoverCarries(s, DeliverNext(s, t, f, rest))
  {
    var record := s.waiters[f][i];
    var s' := DeliverNext(s, t, f, rest);
    var tasks := [Callback(record.token), Deliver(f)] + rest;
    SwapRemoveIsExact(s.waiters[f], i);
    NowOwed(s', t, Callback(record.token));
    forall token, item | token !in s'.dead && Covered(s, token, item) ensures Covered(s', token, item) {
      if Owed(s, Callback(token)) {
        StillOwed(s, s', t, tasks, Callback(token));
      } else if token !in s.notified && token != record.token {
        var w :| w in s.waiters[item.facet] && w.token == token && w.waitFor == item.waitFor;
        assert w in s'.waiters[item.facet];
      }
    }
  }

  lemma TakeKeepsInv(s: System, t: nat, f: nat, i: nat, rest: seq<Task>)
    requires Inv(s) && t < |s.threads| && s.threads[t] == [Deliver(f)] + rest
    requires f < |s.waiters| && FirstNotifying(s.waiters[f]) == Some(i)
    ensures Inv(DeliverNext(s, t, f, rest))
  {
    var s' := DeliverNext(s, t, f, rest);
    var tasks := [Callback(s.waiters[f][i].token), Deliver(f)] + rest;
    SwapRemoveIsExact(s.waiters[f], i);
    MarksKept(s, s', t, tasks);
    TakeKeepsOnce(s, t, f, i, rest);
    TakeCovers(s, t, f, i, rest);
    TrackedKept(s, s', t, tasks);
  }

  lemma UnregisterKeepsInv(s: System, t: nat, token: nat, facets: seq<nat>, rest: seq<Task>)
    requires Inv(s) && t < |s.threads| && s.threads[t] == [Unregister(token, facets)] + rest && facets != []
    ensures Inv(UnregisterNext(s, t, Unregister(token, facets), rest))
  {
    var f, s' := facets[0], UnregisterNext(s, t, Unregister(token, facets), rest);
    var tasks := [Unregister(token, facets[1..])] + rest;
    assert TaskTracked(s, s.threads[t][0]);
    if f < |s.waiters| {
      WithoutIsExact(s.waiters[f], token);
      OnceKept(s, s', f, Without(s.waiters[f], token));
    }
    MarksKept(s, s', t, tasks);
    forall other, item | other !in s'.dead && Covered(s, other, item) ensures Covered(s', other, item) {
      if Owed(s, Callback(other)) { StillOwed(s, s', t, tasks, Callback(other)); }
    }
    TrackedKept(s, s', t, tasks);
  }

  // ----------------------------------------------------------- registration

  lemma AbandonKeepsInv(s: System, t: nat, task: Task, rest: seq<Task>)
    requires Inv(s) && t < |s.threads| && task.Register? && s.threads[t] == [task] + rest
    ensures Inv(Abandon(s, t, task, rest))
  {
    var s' := Abandon(s, t, task, rest);
    var tasks := [Unregister(task.token, Facets(task.done))] + rest;
    MarksKept(s, s', t, tasks);
    CoverKept(s, s', t, tasks);
    TrackedKept(s, s', t, tasks);
  }

  lemma ReadyItemKeepsInv(s: System, t: nat, task: Task, next: Task, rest: seq<Task>)
    requires Inv(s) && t < |s.threads| && task.Register? && s.threads[t] == [task] + rest
    requires next.Register? && next.ready
    ensures Inv(SetThread(s, t, [next] + rest))
  {
    var s' := SetThread(s, t, [next] + rest);
    MarksKept(s, s', t, [next] + rest);
    CoverKept(s, s', t, [next] + rest);
    TrackedKept(s, s', t, [next] + rest);
  }

  lemma FinishKeepsInv(s: System, t: nat, task: Task, rest: seq<Task>)
    requires Inv(s) && t < |s.threads| && task.Register? && s.threads[t] == [task] + rest
    ensures Inv(FinishRegister(s, t, task, rest))
  {
    var s' := FinishRegister(s, t, task, rest);
    var tasks := (if task.ready then [Callback(task.token)] else []) + rest;
    MarksKept(s, s', t, tasks);
    CoverKept(s, s', t, tasks);
    TrackedKept(s, s'.(waiting := s.waiting), t, tasks);
    assert TaskTracked(s, s.threads[t][0]);
    if task.ready { NowOwed(s', t, Callback(task.token)); }
    forall token, item | token in s'.waiting && token !in s'.dead && item in s'.waiting[token]
      ensures Covered(s', token, item)
    {
      if token != task.token { assert Covered(s, token, item); }
    }
    forall u, other | 0 <= u < |s'.threads| && other in s'.threads[u] ensures TaskTracked(s', other) {
      assert TaskTracked(s'.(waiting := s.waiting), other);
    }
  }

  lemma RetainKeepsOnce(s: System, t: nat, task: Task, rest: seq<Task>)
    requires Shaped(s) && OnceOnly(s) && t < |s.threads| && task.Register?
    requires task.todo != [] && task.todo[0].facet < |s.waiters|
    ensures OnceOnly(Retained(s, t, task, rest))
  {
    var f, s' := task.todo[0].facet, Retained(s, t, task, rest);
    assert Ids(s'.waiters[f]) == Ids(s.waiters[f]) + {s.nextId};
    forall i | 0 <= i < |s.waiters[f]|
      ensures s.waiters[f][i].id < s.nextId
    {
      assert s.waiters[f][i].id in Ids(s.waiters[f]);
    }
    forall g | 0 <= g < |s.waiters|
      ensures Undelivered(s', Ids(s'.waiters[g]))
    {
      assert Undelivered(s, Ids(s.waiters[g]));
    }
  }

  lemma RetainKeepsMarks(s: System, t: nat, task: Task, rest: seq<Task>)
    requires Inv(s) && t < |s.threads| && task.Register? && s.threads[t] == [task] + rest && task.todo != []
    requires task.todo[0].facet < |s.waiters| && !Matches(s.levels[task.todo[0].facet], task.todo[0].waitFor)
    ensures NoLostMark(Retained(s, t, task, rest)) && CoverCarries(s, Retained(s, t, task, rest))
  {
    var s' := Retained(s, t, task, rest);
    var tasks := s'.threads[t];
    forall f, w | 0 <= f < |s'.waiters| && w in s'.waiters[f]
      ensures if w.notifying then Owed(s', Deliver(f)) else Matches(s'.levels[f], w.waitFor) ==> Owed(s', Mark(f))
    {
      if w in s.waiters[f] {
        if Owed(s, Deliver(f)) { StillOwed(s, s', t, tasks, Deliver(f)); }
        if Owed(s, Mark(f)) { StillOwed(s, s', t, tasks, Mark(f)); }
      }
    }
    forall token, item | token !in s'.dead && Covered(s, token, item) ensures Covered(s', token, item) {
      if Owed(s, Callback(token)) { StillOwed(s, s', t, tasks, Callback(token)); }
    }
  }

  lemma RetainKeepsInv(s: System, t: nat, task: Task, rest: seq<Task>)
    requires Inv(s) && t < |s.threads| && task.Register? && s.threads[t] == [task] + rest && task.todo != []
    requires task.todo[0].facet < |s.waiters| && !Matches(s.levels[task.todo[0].facet], task.todo[0].waitFor)
    ensures Inv(Retained(s, t, task, rest))
  {
    var s' := Retained(s, t, task, rest);
    RetainKeepsOnce(s, t, task, rest);
    RetainKeepsMarks(s, t, task, rest);
    assert TaskTracked(s, s.threads[t][0]);
    var record := Waiter(s.nextId, task.token, task.todo[0].waitFor, false);
    assert record in s'.waiters[task.todo[0].facet];
    TrackedKept(s, s', t, s'.threads[t]);
  }

  lemma RegisterKeepsInv(s: System, t: nat, failing: bool)
    requires Inv(s) && t < |s.threads| && s.threads[t] != [] && s.threads[t][0].Register?
    ensures Inv(RunHead(s, t, failing))
  {
    var task, rest := s.threads[t][0], s.threads[t][1..];
    assert s.threads[t] == [task] + rest;
    if task.todo == [] {
      FinishKeepsInv(s, t, task, rest);
    } else {
      var item := task.todo[0];
      if failing || item.facet >= |s.levels| {
        AbandonKeepsInv(s, t, task, rest);
      } else if Matches(s.levels[item.facet], item.waitFor) {
        ReadyItemKeepsInv(s, t, task, Register(task.token, task.done + [item], task.todo[1..], true), rest);
      } else if |s.waiters[item.facet]| >= WAITERS_PER_FACET_LIMIT {
        AbandonKeepsInv(s, t, task, rest);
      } else {
        RetainKeepsInv(s, t, task, rest);
      }
    }
  }

  lemma RunHeadKeepsInv(s: System, t: nat, failing: bool)
    requires Inv(s) && t < |s.threads| && s.threads[t] != []
    ensures Inv(RunHead(s, t, failing))
  {
    var rest := s.threads[t][1..];
    assert s.threads[t] == [s.threads[t][0]] + rest;
    match s.threads[t][0]
    case Mark(f) => if f < |s.waiters| { MarkKeepsInv(s, t, f, rest); } else { IdleKeepsInv(s, t, rest); }
    case Deliver(f) =>
      if f < |s.waiters| && FirstNotifying(s.waiters[f]).Some? {
        TakeKeepsInv(s, t, f, FirstNotifying(s.waiters[f]).value, rest);
      } else {
        IdleKeepsInv(s, t, rest);
      }
    case Callback(token) => CallbackKeepsInv(s, t, token, rest);
    case Register(_, _, _, _) => RegisterKeepsInv(s, t, failing);
    case Unregister(token, facets) =>
      if facets == [] { IdleKeepsInv(s, t, rest); } else { UnregisterKeepsInv(s, t, token, facets, rest); }
  }

  /** No interleaving of critical sections breaks the protocol. */
  lemma StepKeepsInv(s: System, e: Event)
    requires Inv(s)
    ensures Inv(Step(s, e))
  {
    match e
    case Mutate(t, levels, notify) =>
      if t < |s.threads| && RaisesOnly(s.levels, levels, notify) { MutateKeepsInv(s, t, levels, notify); }
    case StartWait(t, token, items) => if t < |s.threads| { StartWaitKeepsInv(s, t, token, items); }
    case CancelWait(t, token) => if t < |s.threads| && token in s.waiting { CancelWaitKeepsInv(s, t, token); }
    case RunTask(t, failing) => if t < |s.threads| && s.threads[t] != [] { RunHeadKeepsInv(s, t, failing); }
  }

  ghost function Run(s: System, events: seq<Event>): System
    decreases |events|
  {
    if events == [] || !Shaped(s) then s else Run(Step(s, events[0]), events[1..])
  }

  lemma {:induction false} RunKeepsInv(s: System, events: seq<Event>)
    requires Inv(s)
    ensures Inv(Run(s, events))
    decreases |events|
  {
    if events != [] {
      StepKeepsInv(s, events[0]);
      RunKeepsInv(Step(s, events[0]), events[1..]);
    }
  }

  function Idle(levels: seq<Signals>, threads: nat): System
  {
    System(levels, seq(|levels|, _ => []), seq(threads, _ => []), 0, [], {}, map[], {})
  }

  ghost predicate Quiescent(s: System)
  {
    forall t :: 0 <= t < |s.threads| ==> s.threads[t] == []
  }

  /** No lost wakeup. Once every thread has finished what it owes, no retained record is
      ready; and a live registration that was never called back still has every one of its
      items retained on a facet whose awaited signals are all down. */
  lemma NoLostWakeup(levels: seq<Signals>, threads: nat, events: seq<Event>, s: System)
    requires s == Run(Idle(levels, threads), events) && Quiescent(s)
    ensures Shaped(s)
    ensures forall f, w :: 0 <= f < |s.waiters| && w in s.waiters[f] ==>
      !w.notifying && !Matches(s.levels[f], w.waitFor)
    ensures forall token, item ::
      token in s.waiting && token !in s.dead && token !in s.notified && item in s.waiting[token] ==>
              item.facet < |s.levels| && !Matches(s.levels[item.facet], item.waitFor)
    ensures forall i, j :: 0 <= i < j < |s.delivered| ==> s.delivered[i] != s.delivered[j]
  {
    RunKeepsInv(Idle(levels, threads), events);
    forall task ensures !Owed(s, task) { }
    forall token, item | token in s.waiting && token !in s.dead && token !in s.notified && item in s.waiting[token]
      ensures item.facet < |s.levels| && !Matches(s.levels[item.facet], item.waitFor)
    {
      assert Covered(s, token, item);
    }
  }

  // --------------------------------------- the objects keep their side of it

  function BothSides(ch: Channel): seq<Signals>
    requires Shape(ch)
  {
    [ChannelSignals(ch, 0), ChannelSignals(ch, 1)]
  }

  /** What a channel write, read or endpoint close notifies covers whatever it can raise. */
  lemma ChannelNotifiesEnough(ch: Channel, s: nat, m: Message)
    requires Shape(ch) && s < 2
    ensures RaisesOnly(BothSides(ch), BothSides(Push(ch, s, m)), [s])
    ensures ch.queues[s] != [] ==> RaisesOnly(BothSides(ch), BothSides(Pop(ch, s)), [1 - s])
    ensures RaisesOnly(BothSides(ch), BothSides(CloseSide(ch, s)), [s, 1 - s])
    ensures RaisesOnly(BothSides(ch), BothSides(LoseBuffer(ch, s)), [])
  {
    OnlyNotifiedSidesAreRaised(ch, s, m);
    assert s == 0 || s == 1;
  }

  // ------------------------------------------------------------------ class

  /** One facet's bounded list, updated in place under the object's lock. */
  class WaiterList {
    var waiters: seq<Waiter>

    constructor ()
      ensures waiters == []
    {
      waiters := [];
    }

    method MarkMatching(level: Signals)
      modifies this
      ensures waiters == Marked(old(waiters), level)
    {
      for i := 0 to |waiters|
        invariant |waiters| == |old(waiters)|
        invariant waiters[..i] == Marked(old(waiters), level)[..i] && waiters[i..] == old(waiters)[i..]
      {
        var w := waiters[i];
        assert w == old(waiters)[i];
        waiters := waiters[i := w.(notifying := w.notifying || Matches(level, w.waitFor))];
      }
    }

    /** Takes the first marked record, if there is one. */
    method TakeNotifying() returns (r: Option<Waiter>)
      modifies this
      ensures match FirstNotifying(old(waiters))
              case None => r.None? && waiters == old(waiters)
              case Some(i) => r == Some(old(waiters)[i]) && waiters == SwapRemove(old(waiters), i)
    {
      var i := 0;
      while i < |waiters| && !waiters[i].notifying
        invariant i <= |waiters| && FirstNotifying(waiters) == FirstNotifying(waiters, i)
      {
        i := i + 1;
      }
      if i == |waiters| { return None; }
      r := Some(waiters[i]);
      var last := waiters[|waiters| - 1];
      if i < |waiters| - 1 { waiters := waiters[i := last]; }
      waiters := waiters[..|waiters| - 1];
    }

    method Retain(id: nat, token: nat, waitFor: Signals) returns (r: Result<(), IpcError>)
      modifies this
      ensures r == Err(WaiterLimit) <==> |old(waiters)| >= WAITERS_PER_FACET_LIMIT
      ensures r.Err? ==> waiters == old(waiters) && (r.error == WaiterLimit || r.error == OutOfMemory)
      ensures r.Ok? ==> waiters == old(waiters) + [Waiter(id, token, waitFor, false)]
    {
      if |waiters| >= WAITERS_PER_FACET_LIMIT { return Err(WaiterLimit); }
      var ok := TryAllocate();
      if !ok { return Err(OutOfMemory); }
      waiters := waiters + [Waiter(id, token, waitFor, false)];
      return Ok(());
    }
  }
}
