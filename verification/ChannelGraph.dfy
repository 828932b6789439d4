/** The ownership graph between channels, and the search that keeps it acyclic. */
module ChannelGraph {
  import opened Objects
  import opened Channels

  predicate Leads(e: HandleEntry, d: nat)
  {
    e.obj.Endpoint? && e.obj.channel == d
  }

  predicate AnyLeads(entries: seq<HandleEntry>, d: nat)
  {
    exists k :: 0 <= k < |entries| && Leads(entries[k], d)
  }

  /** Channel `c` has a queued message carrying an endpoint of channel `d`. */
  predicate Carries(chs: seq<Channel>, c: nat, d: nat)
  {
    c < |chs| && AnyLeads(Entries(chs[c]), d)
  }

  ghost predicate IsPath(chs: seq<Channel>, p: seq<nat>)
  {
    |p| > 0 && forall i :: 0 <= i < |p| - 1 ==> Edge(chs, p, i)
  }

  ghost predicate Edge(chs: seq<Channel>, p: seq<nat>, i: nat)
    requires i + 1 < |p|
  {
    Carries(chs, p[i], p[i + 1])
  }

  ghost predicate PathBetween(chs: seq<Channel>, p: seq<nat>, a: nat, b: nat)
  {
    IsPath(chs, p) && p[0] == a && p[|p| - 1] == b
  }

  ghost predicate Reaches(chs: seq<Channel>, a: nat, b: nat)
  {
    exists p :: PathBetween(chs, p, a, b)
  }

  /** No channel can be reached again from anything it carries. */
  ghost predicate Acyclic(chs: seq<Channel>)
  {
    forall c, d :: Carries(chs, c, d) ==> !Reaches(chs, d, c)
  }

  ghost predicate Subgraph(small: seq<Channel>, large: seq<Channel>)
  {
    forall c, d :: Carries(small, c, d) ==> Carries(large, c, d)
  }

  lemma ReachesSelf(chs: seq<Channel>, a: nat)
    ensures Reaches(chs, a, a)
  {
    assert PathBetween(chs, [a], a, a);
  }

  lemma PathJoin(chs: seq<Channel>, p: seq<nat>, q: seq<nat>, a: nat, b: nat, c: nat, d: nat)
    requires PathBetween(chs, p, a, b) && Carries(chs, b, c) && PathBetween(chs, q, c, d)
    ensures PathBetween(chs, p + q, a, d)
  {
    var r := p + q;
    forall i | 0 <= i < |r| - 1 ensures Edge(chs, r, i) {
      if i < |p| - 1 {
        assert Edge(chs, p, i);
      } else if i >= |p| {
        assert Edge(chs, q, i - |p|);
      }
    }
  }

  lemma PathTail(chs: seq<Channel>, p: seq<nat>, a: nat, b: nat)
    requires PathBetween(chs, p, a, b) && |p| > 1
    ensures Carries(chs, a, p[1]) && PathBetween(chs, p[1..], p[1], b)
  {
    assert Edge(chs, p, 0);
    forall i | 0 <= i < |p| - 2 ensures Edge(chs, p[1..], i) { assert Edge(chs, p, i + 1); }
  }

  lemma ReachesStep(chs: seq<Channel>, a: nat, b: nat, c: nat)
    requires Carries(chs, a, b) && Reaches(chs, b, c)
    ensures Reaches(chs, a, c)
  {
    var p :| PathBetween(chs, p, b, c);
    PathJoin(chs, [a], p, a, a, b, c);
  }

  lemma ReachesThenStep(chs: seq<Channel>, a: nat, b: nat, c: nat)
    requires Reaches(chs, a, b) && Carries(chs, b, c)
    ensures Reaches(chs, a, c)
  {
    var p :| PathBetween(chs, p, a, b);
    PathJoin(chs, p, [c], a, b, c, c);
  }

  lemma SubgraphReaches(small: seq<Channel>, large: seq<Channel>, a: nat, b: nat)
    requires Subgraph(small, large) && Reaches(small, a, b)
    ensures Reaches(large, a, b)
  {
    var p :| PathBetween(small, p, a, b);
    forall i | 0 <= i < |p| - 1 ensures Edge(large, p, i) { assert Edge(small, p, i); }
    assert PathBetween(large, p, a, b);
  }

  /** Removing edges, as reads and endpoint teardown do, never creates a cycle. */
  lemma SubgraphAcyclic(small: seq<Channel>, large: seq<Channel>)
    requires Subgraph(small, large) && Acyclic(large)
    ensures Acyclic(small)
  {
    forall c, d | Carries(small, c, d) ensures !Reaches(small, d, c) {
      if Reaches(small, d, c) { SubgraphReaches(small, large, d, c); }
    }
  }

  /** `after` has the edges of `before` plus edges out of `c` only. */
  ghost predicate AddsEdgesFrom(before: seq<Channel>, after: seq<Channel>, c: nat)
  {
    forall a, b :: a != c ==> Carries(after, a, b) ==> Carries(before, a, b)
  }

  /** A path into `c` needs none of the edges out of `c`. */
  lemma {:induction false} PathIntoTail(before: seq<Channel>, after: seq<Channel>, c: nat, a: nat, p: seq<nat>)
    requires AddsEdgesFrom(before, after, c) && PathBetween(after, p, a, c)
    ensures Reaches(before, a, c)
    decreases |p|
  {
    if a == c {
      ReachesSelf(before, c);
    } else {
      PathTail(after, p, a, c);
      PathIntoTail(before, after, c, p[1], p[1..]);
      ReachesStep(before, a, p[1], c);
    }
  }

  /** A path either avoids the new edges or passes through `c`. */
  lemma {:induction false} PathSplits(before: seq<Channel>, after: seq<Channel>, c: nat, a: nat, b: nat, p: seq<nat>)
    requires AddsEdgesFrom(before, after, c) && PathBetween(after, p, a, b)
    ensures Reaches(before, a, b) || (Reaches(after, a, c) && exists z :: Carries(after, c, z) && Reaches(after, z, b))
    decreases |p|
  {
    if |p| == 1 {
      ReachesSelf(before, a);
    } else {
      PathTail(after, p, a, b);
      if a == c {
        ReachesSelf(after, c);
        assert Carries(after, c, p[1]) && Reaches(after, p[1], b);
      } else {
        PathSplits(before, after, c, p[1], b, p[1..]);
        if Reaches(before, p[1], b) { ReachesStep(before, a, p[1], b); } else { ReachesStep(after, a, p[1], c); }
      }
    }
  }

  lemma ReachesCompose(chs: seq<Channel>, a: nat, b: nat, c: nat)
    requires Reaches(chs, a, b) && Reaches(chs, b, c)
    ensures Reaches(chs, a, c)
  {
    var p :| PathBetween(chs, p, a, b);
    var q :| PathBetween(chs, q, b, c);
    if |q| > 1 {
      PathTail(chs, q, b, c);
      PathJoin(chs, p, q[1..], a, b, q[1], c);
    }
  }

  lemma IntoTail(before: seq<Channel>, after: seq<Channel>, c: nat, a: nat)
    requires AddsEdgesFrom(before, after, c) && Reaches(after, a, c)
    ensures Reaches(before, a, c)
  {
    var p :| PathBetween(after, p, a, c);
    PathIntoTail(before, after, c, a, p);
  }

  /** A new cycle would have to pass through `c`, and so would have been found. */
  lemma NoNewCycle(before: seq<Channel>, after: seq<Channel>, c: nat, x: nat, y: nat)
    requires AddsEdgesFrom(before, after, c) && Carries(after, x, y) && Reaches(after, y, x)
    ensures (x != c && Reaches(before, y, x)) || exists d :: Carries(after, c, d) && Reaches(before, d, c)
  {
    if x == c {
      IntoTail(before, after, c, y);
    } else {
      var p :| PathBetween(after, p, y, x);
      PathSplits(before, after, c, y, x, p);
      if !Reaches(before, y, x) {
        var z :| Carries(after, c, z) && Reaches(after, z, x);
        ReachesThenStep(after, z, x, y);
        ReachesCompose(after, z, y, c);
        IntoTail(before, after, c, z);
      }
    }
  }

  /** Queueing endpoints none of whose channels reach `c` closes no cycle. */
  lemma AcceptedWriteKeepsAcyclic(before: seq<Channel>, after: seq<Channel>, c: nat)
    requires Acyclic(before) && AddsEdgesFrom(before, after, c)
    requires forall d :: Carries(after, c, d) ==> Carries(before, c, d) || !Reaches(before, d, c)
    ensures Acyclic(after)
  {
    forall x, y | Carries(after, x, y) ensures !Reaches(after, y, x) {
      if Reaches(after, y, x) { NoNewCycle(before, after, c, x, y); }
    }
  }

  // ----------------------------------------------------------------- search

  lemma AnyLeadsSnoc(entries: seq<HandleEntry>, e: HandleEntry, d: nat)
    ensures AnyLeads(entries + [e], d) <==> AnyLeads(entries, d) || Leads(e, d)
  {
    if AnyLeads(entries, d) {
      var k :| 0 <= k < |entries| && Leads(entries[k], d);
      assert Leads((entries + [e])[k], d);
    }
    if Leads(e, d) { assert Leads((entries + [e])[|entries|], d); }
  }

  /** Exactly the channels these entries lead to. */
  ghost predicate Collects(outgoing: seq<nat>, entries: seq<HandleEntry>)
  {
    forall d: nat :: d in outgoing <==> AnyLeads(entries, d)
  }

  /** Adds the channels that the handles of one message lead to. */
  method CollectOutgoing(outgoing: seq<nat>, handles: seq<HandleEntry>, ghost seen: seq<HandleEntry>)
    returns (r: Result<seq<nat>, IpcError>)
    requires Collects(outgoing, seen)
    ensures r.Err? ==> r.error == OutOfMemory
    ensures r.Ok? ==> Collects(r.value, seen + handles)
  {
    var all := outgoing;
    assert seen + handles[..0] == seen;
    for k := 0 to |handles|
      invariant Collects(all, seen + handles[..k])
    {
      CollectsNext(all, seen + handles[..k], handles[k]);
      assert seen + handles[..k + 1] == seen + handles[..k] + [handles[k]];
      if handles[k].obj.Endpoint? {
        var ok := TryAllocate();
        if !ok { return Err(OutOfMemory); }
        all := all + [handles[k].obj.channel];
      }
    }
    assert handles[..|handles|] == handles;
    return Ok(all);
  }

  lemma CollectsNext(outgoing: seq<nat>, entries: seq<HandleEntry>, e: HandleEntry)
    requires Collects(outgoing, entries)
    ensures Collects(if e.obj.Endpoint? then outgoing + [e.obj.channel] else outgoing, entries + [e])
  {
    forall d: nat { AnyLeadsSnoc(entries, e, d); }
  }

  /** Adds the channels that the messages of one queue lead to. */
  method CollectQueue(outgoing: seq<nat>, queue: seq<Message>, ghost seen: seq<HandleEntry>)
    returns (r: Result<seq<nat>, IpcError>)
    requires Collects(outgoing, seen)
    ensures r.Err? ==> r.error == OutOfMemory
    ensures r.Ok? ==> Collects(r.value, seen + Contents(queue))
  {
    var all := outgoing;
    assert seen + Contents(queue[..0]) == seen;
    for i := 0 to |queue|
      invariant Collects(all, seen + Contents(queue[..i]))
    {
      var next := CollectOutgoing(all, queue[i].handles, seen + Contents(queue[..i]));
      if next.Err? { return next; }
      all := next.value;
      ContentsNext(queue, i);
      assert seen + Contents(queue[..i + 1]) == seen + Contents(queue[..i]) + queue[i].handles;
    }
    assert queue[..|queue|] == queue;
    return Ok(all);
  }

  lemma ContentsNext(queue: seq<Message>, i: nat)
    requires i < |queue|
    ensures Contents(queue[..i + 1]) == Contents(queue[..i]) + queue[i].handles
  {
    assert queue[..i + 1] == queue[..i] + [queue[i]];
    ContentsSnoc(queue[..i], queue[i]);
  }

  /** Clones the outgoing channel references of one locked channel. */
  method OutgoingChannels(ch: Channel) returns (r: Result<seq<nat>, IpcError>)
    requires Shape(ch)
    ensures r.Err? ==> r.error == OutOfMemory
    ensures r.Ok? ==> forall d: nat :: d in r.value <==> AnyLeads(Entries(ch), d)
  {
    var outgoing: seq<nat> := [];
    ghost var seen: seq<HandleEntry> := [];
    for side := 0 to 2
      invariant Collects(outgoing, seen)
      invariant seen == if side == 0 then [] else if side == 1 then Contents(ch.queues[0]) else Entries(ch)
    {
      var next := CollectQueue(outgoing, ch.queues[side], seen);
      if next.Err? { return next; }
      outgoing, seen := next.value, seen + Contents(ch.queues[side]);
    }
    return Ok(outgoing);
  }

  /** `visited` can be left only through `pending`. */
  ghost predicate ClosedUpTo(chs: seq<Channel>, visited: seq<nat>, pending: seq<nat>)
  {
    forall c, d :: c in visited && Carries(chs, c, d) ==> d in visited || d in pending
  }

  lemma {:induction false} ClosedCannotLeave(chs: seq<Channel>, visited: seq<nat>, a: nat, b: nat, p: seq<nat>)
    requires ClosedUpTo(chs, visited, []) && a in visited && PathBetween(chs, p, a, b)
    ensures b in visited
    decreases |p|
  {
    if |p| > 1 {
      PathTail(chs, p, a, b);
      ClosedCannotLeave(chs, visited, p[1], b, p[1..]);
    }
  }

  /** What other threads may do while the graph lock is held: edges only disappear. */
  ghost predicate OnlyRemovals(views: nat -> seq<Channel>)
  {
    forall i: nat :: RemovesAt(views, i)
  }

  ghost predicate RemovesAt(views: nat -> seq<Channel>, i: nat) { Subgraph(views(i + 1), views(i)) }

  lemma RemovalsCompose(views: nat -> seq<Channel>, i: nat, j: nat)
    requires OnlyRemovals(views) && i <= j
    ensures Subgraph(views(j), views(i))
  {
    var edges := EdgesOf(views);
    forall k: nat ensures ShrinksAt(edges, k) { assert RemovesAt(views, k); }
    Shrinking(edges, i, j);
    forall c: nat, d: nat | Carries(views(j), c, d) ensures Carries(views(i), c, d) { assert edges(j, c, d); }
  }

  ghost function EdgesOf(views: nat -> seq<Channel>): (nat, nat, nat) -> bool
  {
    (k: nat, c: nat, d: nat) => Carries(views(k), c, d)
  }

  ghost predicate ShrinksAt(edges: (nat, nat, nat) -> bool, k: nat)
  {
    forall c: nat, d: nat :: edges(k + 1, c, d) ==> edges(k, c, d)
  }

  lemma {:induction false} Shrinking(edges: (nat, nat, nat) -> bool, i: nat, j: nat)
    requires i <= j && forall k: nat :: ShrinksAt(edges, k)
    ensures forall c: nat, d: nat :: edges(j, c, d) ==> edges(i, c, d)
    decreases j
  {
    if i < j {
      Shrinking(edges, i, j - 1);
      assert ShrinksAt(edges, j - 1);
    }
  }

  /** Channels that exist, `views(i)` being what the i-th lock acquisition shows. */
  ghost predicate Known(views: nat -> seq<Channel>, n: nat)
  {
    && (forall i: nat :: ShapedAt(views, i, n))
    && (forall c: nat, d: nat :: Carries(views(0), c, d) ==> d < n)
  }

  ghost predicate ShapedAt(views: nat -> seq<Channel>, i: nat, n: nat)
  {
    n <= |views(i)| && forall c :: 0 <= c < n ==> Shape(views(i)[c])
  }

  /** How many of the first `n` channels have not been visited. */
  ghost function Unvisited(n: nat, visited: seq<nat>): nat
  {
    if n == 0 then 0 else Unvisited(n - 1, visited) + if n - 1 in visited then 0 else 1
  }

  lemma {:induction false} VisitShrinks(n: nat, visited: seq<nat>, c: nat)
    requires c !in visited
    ensures Unvisited(n, visited + [c]) == Unvisited(n, visited) - if c < n then 1 else 0
  {
    if n > 0 { VisitShrinks(n - 1, visited, c); }
  }

  /** Everything on the worklist exists and was reached from the source. */
  ghost predicate AllReached(chs: seq<Channel>, source: nat, n: nat, pending: seq<nat>)
  {
    forall c: nat :: c in pending ==> c < n && Reaches(chs, source, c)
  }

  lemma AllReachedSplits(chs: seq<Channel>, source: nat, n: nat, a: seq<nat>, b: seq<nat>)
    ensures AllReached(chs, source, n, a + b) <==> AllReached(chs, source, n, a) && AllReached(chs, source, n, b)
  {
    if AllReached(chs, source, n, a + b) {
      forall c: nat | c in a || c in b ensures c < n && Reaches(chs, source, c) { assert c in a + b; }
    }
  }

  /** The source is visited or waiting, and so is everything visited channels lead to. */
  ghost predicate Searching(
    views: nat -> seq<Channel>, start: nat, tick: nat, source: nat, n: nat, visited: seq<nat>, pending: seq<nat>)
  {
    && ClosedUpTo(views(tick), visited, pending) && (source in visited || source in pending)
    && AllReached(views(start), source, n, pending)
  }

  lemma SearchingLast(
    views: nat -> seq<Channel>, start: nat, tick: nat, source: nat, n: nat, visited: seq<nat>, pending: seq<nat>)
    requires pending != [] && Searching(views, start, tick, source, n, visited, pending)
    ensures var last := |pending| - 1;
            Searching(views, start, tick, source, n, visited, pending[..last] + [pending[last]])
  {
    assert pending == pending[..|pending| - 1] + [pending[|pending| - 1]];
  }

  lemma LastIsReached(
    views: nat -> seq<Channel>, start: nat, tick: nat, source: nat, n: nat, visited: seq<nat>, pending: seq<nat>)
    requires pending != [] && Searching(views, start, tick, source, n, visited, pending)
    ensures Reaches(views(start), source, pending[|pending| - 1])
  {
    assert pending[|pending| - 1] in pending;
  }

  lemma PrefixTransitive(a: seq<nat>, b: seq<nat>, c: seq<nat>)
    requires a <= b && b <= c
    ensures a <= c && |b| <= |c|
  {
  }

  lemma StartsSearching(views: nat -> seq<Channel>, start: nat, source: nat, n: nat, visited: seq<nat>)
    requires source < n && ClosedUpTo(views(start), visited, [])
    ensures Searching(views, start, start, source, n, visited, [source])
  {
    ReachesSelf(views(start), source);
  }

  lemma SkipVisited(
    views: nat -> seq<Channel>, start: nat, tick: nat, source: nat, n: nat, visited: seq<nat>, rest: seq<nat>, c: nat)
    requires Searching(views, start, tick, source, n, visited, rest + [c]) && c in visited
    ensures Searching(views, start, tick, source, n, visited, rest)
  {
    AllReachedSplits(views(start), source, n, rest, [c]);
    assert source in rest + [c] ==> source in rest || source == c;
  }

  /** A visited set with no way out does not lead to what is outside it. */
  lemma ClosedNeverReaches(chs: seq<Channel>, visited: seq<nat>, a: nat, b: nat)
    requires ClosedUpTo(chs, visited, []) && a in visited && b !in visited
    ensures !Reaches(chs, a, b)
  {
    forall p | PathBetween(chs, p, a, b) ensures false {
      ClosedCannotLeave(chs, visited, a, b, p);
    }
  }

  lemma TopIsReached(chs: seq<Channel>, source: nat, n: nat, rest: seq<nat>, c: nat)
    requires AllReached(chs, source, n, rest + [c])
    ensures c < n && Reaches(chs, source, c) && AllReached(chs, source, n, rest)
  {
    AllReachedSplits(chs, source, n, rest, [c]);
    assert c in [c];
  }

  /** Locks one channel and puts where its queued endpoints lead on the worklist. */
  method VisitChannel(
    candidate: nat, views: nat -> seq<Channel>, tick: nat, rest: seq<nat>,
    ghost source: nat, ghost visited: seq<nat>, ghost start: nat, ghost n: nat)
    returns (r: Result<seq<nat>, IpcError>)
    requires OnlyRemovals(views) && Known(views, n) && start <= tick && candidate !in visited
    requires Searching(views, start, tick, source, n, visited, rest + [candidate])
    ensures r.Err? ==> r.error == OutOfMemory
    ensures candidate < n && Unvisited(n, visited + [candidate]) < Unvisited(n, visited)
    ensures r.Ok? ==> Searching(views, start, tick + 1, source, n, visited + [candidate], r.value)
  {
    TopIsReached(views(start), source, n, rest, candidate);
    VisitShrinks(n, visited, candidate);
    var room := TryAllocate();
    if !room { return Err(OutOfMemory); }
    assert ShapedAt(views, tick, n);
    var outgoing := OutgoingChannels(views(tick)[candidate]);
    if outgoing.Err? { return Err(OutOfMemory); }
    assert forall d: nat :: d in outgoing.value <==> Carries(views(tick), candidate, d);
    RemovalsCompose(views, start, tick);
    RemovalsCompose(views, 0, tick);
    forall d: nat | d in outgoing.value ensures d < n && Reaches(views(start), source, d) {
      ReachesThenStep(views(start), source, candidate, d);
    }
    assert RemovesAt(views, tick);
    if outgoing.value != [] {
      var ok := TryAllocate();
      if !ok { return Err(OutOfMemory); }
    }
    AllReachedSplits(views(start), source, n, rest, outgoing.value);
    return Ok(rest + outgoing.value);
  }

  /** Visits a channel unless that was done before. */
  method VisitOnce(
    source: nat, visited: seq<nat>, rest: seq<nat>, candidate: nat, views: nat -> seq<Channel>, tick: nat,
    ghost start: nat, ghost n: nat)
    returns (visited': seq<nat>, later: nat, pending: Result<seq<nat>, IpcError>)
    requires OnlyRemovals(views) && Known(views, n) && start <= tick
    requires Searching(views, start, tick, source, n, visited, rest + [candidate])
    ensures visited' == if candidate in visited then visited else visited + [candidate]
    ensures later == if candidate in visited then tick else tick + 1
    ensures pending.Err? ==> pending.error == OutOfMemory
    ensures pending.Ok? ==> Searching(views, start, later, source, n, visited', pending.value)
    ensures candidate in visited ==> pending == Ok(rest)
    ensures candidate !in visited ==> Unvisited(n, visited') < Unvisited(n, visited)
  {
    if candidate in visited {
      SkipVisited(views, start, tick, source, n, visited, rest, candidate);
      return visited, tick, Ok(rest);
    }
    visited', later := visited + [candidate], tick + 1;
    pending := VisitChannel(candidate, views, tick, rest, source, visited, start, n);
  }

  /** Takes one channel off the worklist: the destination, or one to visit. */
  method SearchStep(
    source: nat, destination: nat, visited: seq<nat>, pending: seq<nat>, views: nat -> seq<Channel>, tick: nat,
    ghost start: nat, ghost n: nat)
    returns (found: bool, visited': seq<nat>, later: nat, pending': Result<seq<nat>, IpcError>)
    requires OnlyRemovals(views) && Known(views, n) && start <= tick && pending != [] && destination !in visited
    requires Searching(views, start, tick, source, n, visited, pending)
    ensures visited <= visited' && destination !in visited' && later - tick == |visited'| - |visited|
    ensures found ==> Reaches(views(start), source, destination)
    ensures pending'.Err? ==> pending'.error == OutOfMemory
    ensures !found && pending'.Ok? ==> Searching(views, start, later, source, n, visited', pending'.value)
    ensures !found && pending'.Ok? ==>
      Unvisited(n, visited') < Unvisited(n, visited) || (visited' == visited && |pending'.value| < |pending|)
  {
    var rest, candidate := pending[..|pending| - 1], pending[|pending| - 1];
    if candidate == destination {
      LastIsReached(views, start, tick, source, n, visited, pending);
      return true, visited, tick, Ok(rest);
    }
    found := false;
    SearchingLast(views, start, tick, source, n, visited, pending);
    visited', later, pending' := VisitOnce(source, visited, rest, candidate, views, tick, start, n);
  }

  /** Empties the worklist, one lock acquisition per newly visited channel. */
  method Search(
    source: nat, destination: nat, visited: seq<nat>, views: nat -> seq<Channel>, start: nat, ghost n: nat)
    returns (r: Result<bool, IpcError>, visited': seq<nat>, tick: nat)
    requires OnlyRemovals(views) && Known(views, n) && source < n
    requires destination !in visited && ClosedUpTo(views(start), visited, [])
    ensures start <= tick && visited <= visited' && destination !in visited'
    ensures r.Err? ==> r.error == OutOfMemory
    ensures r == Ok(true) ==> Reaches(views(start), source, destination)
    ensures r == Ok(false) ==> ClosedUpTo(views(tick), visited', []) && source in visited'
  {
    r, visited', tick := Ok(false), visited, start;
    var pending: seq<nat> := [source];
    StartsSearching(views, start, source, n, visited);
    while pending != []
      invariant start <= tick && visited <= visited' && destination !in visited'
      invariant r == Ok(false) && Searching(views, start, tick, source, n, visited', pending)
      decreases Unvisited(n, visited'), |pending|
    {
      ghost var seen := visited';
      var found, next;
      found, visited', tick, next := SearchStep(source, destination, visited', pending, views, tick, start, n);
      PrefixTransitive(visited, seen, visited');
      if found { return Ok(true), visited', tick; }
      if next.Err? { return Err(OutOfMemory), visited', tick; }
      pending := next.value;
    }
    NothingPending(views, start, tick, source, n, visited');
  }

  lemma NothingPending(views: nat -> seq<Channel>, start: nat, tick: nat, source: nat, n: nat, visited: seq<nat>)
    requires Searching(views, start, tick, source, n, visited, [])
    ensures ClosedUpTo(views(tick), visited, []) && source in visited
  {
  }

  /** The worklist search of `object_reaches_channel`, with arbitrary removals by other
      threads between lock acquisitions.

      A negative answer is still right when the search ends: no path exists at that
      moment. A positive answer was right when it began. The destination, whose lock
      the caller already holds, is never visited, so it is never locked again. */
  method ObjectReachesChannel(
    obj: Object, destination: nat, visited: seq<nat>, views: nat -> seq<Channel>, start: nat, ghost n: nat)
    returns (r: Result<bool, IpcError>, visited': seq<nat>, tick: nat)
    requires OnlyRemovals(views) && Known(views, n) && (obj.Endpoint? ==> obj.channel < n)
    requires destination !in visited && ClosedUpTo(views(start), visited, [])
    ensures start <= tick && visited <= visited' && destination !in visited'
    ensures r.Err? ==> r.error == OutOfMemory
    ensures r == Ok(true) ==> obj.Endpoint? && Reaches(views(start), obj.channel, destination)
    ensures r == Ok(false) ==> ClosedUpTo(views(tick), visited', [])
    ensures r == Ok(false) && obj.Endpoint? ==> !Reaches(views(tick), obj.channel, destination)
  {
    r, visited', tick := Ok(false), visited, start;
    if obj.Endpoint? {
      var ok := TryAllocate();
      if !ok { return Err(OutOfMemory), visited', tick; }
      r, visited', tick := Search(obj.channel, destination, visited, views, start, n);
      if r == Ok(false) { ClosedNeverReaches(views(tick), visited', obj.channel, destination); }
    }
  }
}
