/** Ordered batches of moves and duplicates out of one handle table, and ordered
    installation into another. */
module Transfers {
  import opened Objects
  import opened Handles
  import opened Refs
  import opened Totals

  datatype HandleOperation = Move | Duplicate

  datatype Disposition = Disposition(handle: u32, operation: HandleOperation, rights: Rights)

  function RequiredRight(operation: HandleOperation): Right
  {
    if operation.Move? then TRANSFER else DUPLICATE
  }

  /** The first error the ordered validation meets from position `i` on. */
  function BatchErrorFrom(slots: seq<HandleSlot>, batch: seq<Disposition>, i: nat): (r: Option<IpcError>)
    requires i <= |batch|
    ensures r.None? ==> forall k :: i <= k < |batch| ==> Lookup(slots, batch[k].handle).Some?
    decreases |batch| - i
  {
    if i == |batch| then None
    else if exists j :: 0 <= j < i && batch[j].handle == batch[i].handle then Some(DuplicateHandle)
    else if Lookup(slots, batch[i].handle).None? then Some(InvalidHandle)
    else
      var entry := EntryOf(slots, batch[i].handle);
      if RequiredRight(batch[i].operation) !in entry.rights then Some(AccessDenied)
      else if !(batch[i].rights <= entry.rights) then Some(InvalidRights)
      else BatchErrorFrom(slots, batch, i + 1)
  }

  function BatchError(slots: seq<HandleSlot>, batch: seq<Disposition>): Option<IpcError>
  {
    BatchErrorFrom(slots, batch, 0)
  }

  predicate Permits(slots: seq<HandleSlot>, d: Disposition)
  {
    && Lookup(slots, d.handle).Some?
    && RequiredRight(d.operation) in EntryOf(slots, d.handle).rights
    && d.rights <= EntryOf(slots, d.handle).rights
  }

  ghost predicate BatchOk(slots: seq<HandleSlot>, batch: seq<Disposition>)
  {
    && (forall i :: 0 <= i < |batch| ==> Permits(slots, batch[i]))
    && (forall i, j :: 0 <= i < j < |batch| ==> batch[i].handle != batch[j].handle)
  }

  /** Validation reports no error exactly for batches of distinct, live, sufficiently
      privileged handles whose requested rights do not exceed their source. */
  lemma {:induction false} BatchErrorFromIsExact(slots: seq<HandleSlot>, batch: seq<Disposition>, i: nat)
    requires i <= |batch|
    ensures BatchErrorFrom(slots, batch, i).None? <==>
              && (forall k :: i <= k < |batch| ==> Permits(slots, batch[k]))
              && (forall j, k :: 0 <= j < k && i <= k < |batch| ==> batch[j].handle != batch[k].handle)
    decreases |batch| - i
  {
    if i < |batch| { BatchErrorFromIsExact(slots, batch, i + 1); }
  }

  lemma BatchErrorIsExact(slots: seq<HandleSlot>, batch: seq<Disposition>)
    ensures BatchError(slots, batch).None? <==> BatchOk(slots, batch)
  {
    BatchErrorFromIsExact(slots, batch, 0);
  }

  predicate AllLive(slots: seq<HandleSlot>, batch: seq<Disposition>)
  {
    forall i :: 0 <= i < |batch| ==> Lookup(slots, batch[i].handle).Some?
  }

  function Source(slots: seq<HandleSlot>, batch: seq<Disposition>, i: nat): nat
    requires AllLive(slots, batch) && i < |batch|
  {
    Lookup(slots, batch[i].handle).value
  }

  /** What the batch delivers: each named object with the requested rights, in order. */
  function Prepared(slots: seq<HandleSlot>, batch: seq<Disposition>): seq<HandleEntry>
    requires AllLive(slots, batch)
  {
    seq(|batch|, i requires 0 <= i < |batch| =>
      HandleEntry(EntryOf(slots, batch[i].handle).obj, batch[i].rights))
  }

  /** The source table once the moves among the first `n` dispositions have left it. */
  function TakeFirst(slots: seq<HandleSlot>, batch: seq<Disposition>, n: nat): (r: seq<HandleSlot>)
    requires AllLive(slots, batch) && n <= |batch|
    ensures |r| == |slots|
  {
    if n == 0 then slots else
      var rest := TakeFirst(slots, batch, n - 1);
      if batch[n - 1].operation.Move?
      then var k := Source(slots, batch, n - 1); rest[k := Vacate(rest[k])]
      else rest
  }

  function TakeMoves(slots: seq<HandleSlot>, batch: seq<Disposition>): seq<HandleSlot>
    requires AllLive(slots, batch)
  {
    TakeFirst(slots, batch, |batch|)
  }

  /** The objects whose reference count the first `n` dispositions raise. */
  ghost function ClonedFirst(slots: seq<HandleSlot>, batch: seq<Disposition>, n: nat): multiset<Object>
    requires AllLive(slots, batch) && n <= |batch|
  {
    if n == 0 then multiset{} else
      ClonedFirst(slots, batch, n - 1)
      + (if batch[n - 1].operation.Duplicate? then multiset{EntryOf(slots, batch[n - 1].handle).obj} else multiset{})
  }

  ghost function Cloned(slots: seq<HandleSlot>, batch: seq<Disposition>): multiset<Object>
    requires AllLive(slots, batch)
  {
    ClonedFirst(slots, batch, |batch|)
  }

  ghost predicate MovedFrom(slots: seq<HandleSlot>, batch: seq<Disposition>, n: nat, k: nat)
    requires AllLive(slots, batch) && n <= |batch|
  {
    exists i :: 0 <= i < n && batch[i].operation.Move? && Source(slots, batch, i) == k
  }

  lemma SourcesDiffer(slots: seq<HandleSlot>, batch: seq<Disposition>, i: nat, j: nat)
    requires BatchOk(slots, batch) && i < j < |batch|
    ensures Source(slots, batch, i) != Source(slots, batch, j)
  {
    DistinctHandlesNameDistinctSlots(slots, batch[i].handle, batch[j].handle);
  }

  /** A batch vacates exactly the moved slots, once each, and touches no other slot. */
  lemma {:induction false} TakeFirstIsExact(slots: seq<HandleSlot>, batch: seq<Disposition>, n: nat, k: nat)
    requires BatchOk(slots, batch) && n <= |batch| && k < |slots|
    ensures TakeFirst(slots, batch, n)[k] == if MovedFrom(slots, batch, n, k) then Vacate(slots[k]) else slots[k]
  {
    if n > 0 {
      TakeFirstIsExact(slots, batch, n - 1, k);
      if batch[n - 1].operation.Move? && Source(slots, batch, n - 1) == k {
        forall i | 0 <= i < n - 1 ensures Source(slots, batch, i) != k { SourcesDiffer(slots, batch, i, n - 1); }
      }
    }
  }

  lemma NextSourceStillHeld(slots: seq<HandleSlot>, batch: seq<Disposition>, n: nat)
    requires BatchOk(slots, batch) && n < |batch|
    ensures TakeFirst(slots, batch, n)[Source(slots, batch, n)] == slots[Source(slots, batch, n)]
  {
    TakeFirstIsExact(slots, batch, n, Source(slots, batch, n));
    forall i | 0 <= i < n
      ensures Source(slots, batch, i) != Source(slots, batch, n)
    {
      SourcesDiffer(slots, batch, i, n);
    }
  }

  lemma PreparedStep(slots: seq<HandleSlot>, batch: seq<Disposition>, n: nat, o: Object)
    requires AllLive(slots, batch) && n < |batch|
    ensures EntriesCount(Prepared(slots, batch)[..n + 1], o) == EntriesCount(Prepared(slots, batch)[..n], o)
              + (if EntryOf(slots, batch[n].handle).obj == o then 1 else 0)
  {
    var prepared := Prepared(slots, batch);
    assert prepared[..n + 1] == prepared[..n] + [prepared[n]];
    TotalAppend(prepared[..n], prepared[n], EntryCount(o));
  }

  lemma TakeStep(slots: seq<HandleSlot>, batch: seq<Disposition>, n: nat, o: Object)
    requires BatchOk(slots, batch) && n < |batch| && batch[n].operation.Move?
    ensures TableCount(TakeFirst(slots, batch, n + 1), o) + (if EntryOf(slots, batch[n].handle).obj == o then 1 else 0)
         == TableCount(TakeFirst(slots, batch, n), o)
  {
    var rest := TakeFirst(slots, batch, n);
    var k := Source(slots, batch, n);
    NextSourceStillHeld(slots, batch, n);
    TotalUpdate(rest, k, Vacate(rest[k]), SlotCount(o));
  }

  lemma {:induction false} FirstConserveRefs(slots: seq<HandleSlot>, batch: seq<Disposition>, n: nat, o: Object)
    requires BatchOk(slots, batch) && n <= |batch|
    ensures TableCount(TakeFirst(slots, batch, n), o) + EntriesCount(Prepared(slots, batch)[..n], o)
         == TableCount(slots, o) + ClonedFirst(slots, batch, n)[o]
  {
    if n > 0 {
      FirstConserveRefs(slots, batch, n - 1, o);
      PreparedStep(slots, batch, n - 1, o);
      if batch[n - 1].operation.Move? { TakeStep(slots, batch, n - 1, o); }
    }
  }

  /** Moves conserve references; duplicates add exactly one each. */
  lemma BatchConservesRefs(slots: seq<HandleSlot>, batch: seq<Disposition>, o: Object)
    requires BatchOk(slots, batch)
    ensures TableCount(TakeMoves(slots, batch), o) + EntriesCount(Prepared(slots, batch), o)
         == TableCount(slots, o) + Cloned(slots, batch)[o]
  {
    FirstConserveRefs(slots, batch, |batch|, o);
    assert Prepared(slots, batch)[..|batch|] == Prepared(slots, batch);
  }

  lemma TakeMovesEvolves(slots: seq<HandleSlot>, batch: seq<Disposition>)
    requires TableInv(slots) && BatchOk(slots, batch)
    ensures TableInv(TakeMoves(slots, batch)) && Evolves(slots, TakeMoves(slots, batch))
  {
    forall k | 0 <= k < |slots|
      ensures SlotInv(TakeMoves(slots, batch)[k]) && SlotEvolves(slots[k], TakeMoves(slots, batch)[k])
    {
      TakeFirstIsExact(slots, batch, |batch|, k);
      assert SlotInv(slots[k]);
    }
  }

  // ----------------------------------------------------------- installation

  ghost predicate Vacancies(slots: seq<HandleSlot>, indices: seq<nat>)
  {
    Ascending(indices) && forall i :: 0 <= i < |indices| ==> indices[i] < |slots| && IsVacant(slots[indices[i]])
  }

  /** The table once the first `n` entries have been installed at their indices. */
  function InstallFirst(
    slots: seq<HandleSlot>, indices: seq<nat>, entries: seq<HandleEntry>, n: nat): (r: seq<HandleSlot>)
    requires |indices| == |entries| && n <= |indices| && forall i :: 0 <= i < |indices| ==> indices[i] < |slots|
    ensures |r| == |slots|
  {
    if n == 0 then slots else
      var rest := InstallFirst(slots, indices, entries, n - 1);
      rest[indices[n - 1] := rest[indices[n - 1]].(entry := Some(entries[n - 1]))]
  }

  /** Installing fills exactly the reserved slots, in order, and touches no other slot. */
  lemma {:induction false} InstallFirstElsewhere(
    slots: seq<HandleSlot>, indices: seq<nat>, entries: seq<HandleEntry>, n: nat, k: nat)
    requires |indices| == |entries| && n <= |indices| && Vacancies(slots, indices) && k < |slots| && k !in indices[..n]
    ensures InstallFirst(slots, indices, entries, n)[k] == slots[k]
  {
    if n > 0 {
      assert indices[..n] == indices[..n - 1] + [indices[n - 1]];
      InstallFirstElsewhere(slots, indices, entries, n - 1, k);
    }
  }

  lemma {:induction false} InstallFirstAt(
    slots: seq<HandleSlot>, indices: seq<nat>, entries: seq<HandleEntry>, n: nat, i: nat)
    requires |indices| == |entries| && n <= |indices| && Vacancies(slots, indices) && i < n
    ensures InstallFirst(slots, indices, entries, n)[indices[i]] == slots[indices[i]].(entry := Some(entries[i]))
    decreases n
  {
    if i == n - 1 {
      assert indices[i] !in indices[..i];
      InstallFirstElsewhere(slots, indices, entries, i, indices[i]);
    } else {
      InstallFirstAt(slots, indices, entries, n - 1, i);
      assert indices[i] != indices[n - 1];
    }
  }

  lemma InstallFirstIsExact(slots: seq<HandleSlot>, indices: seq<nat>, entries: seq<HandleEntry>, n: nat)
    requires |indices| == |entries| && n <= |indices| && Vacancies(slots, indices)
    ensures forall i :: 0 <= i < n ==>
              InstallFirst(slots, indices, entries, n)[indices[i]] == slots[indices[i]].(entry := Some(entries[i]))
    ensures forall k :: 0 <= k < |slots| && k !in indices[..n] ==>
      InstallFirst(slots, indices, entries, n)[k] == slots[k]
  {
    forall i | 0 <= i < n
      ensures InstallFirst(slots, indices, entries, n)[indices[i]] == slots[indices[i]].(entry := Some(entries[i]))
    {
      InstallFirstAt(slots, indices, entries, n, i);
    }
    forall k | 0 <= k < |slots| && k !in indices[..n] ensures InstallFirst(slots, indices, entries, n)[k] == slots[k] {
      InstallFirstElsewhere(slots, indices, entries, n, k);
    }
  }

  lemma {:induction false} InstallFirstAddsRefs(
    slots: seq<HandleSlot>, indices: seq<nat>, entries: seq<HandleEntry>, n: nat, o: Object)
    requires |indices| == |entries| && n <= |indices| && Vacancies(slots, indices)
    ensures TableCount(InstallFirst(slots, indices, entries, n), o) ==
      TableCount(slots, o) + EntriesCount(entries[..n], o)
  {
    if n > 0 {
      InstallFirstAddsRefs(slots, indices, entries, n - 1, o);
      var rest := InstallFirst(slots, indices, entries, n - 1);
      var k := indices[n - 1];
      assert rest[k] == slots[k] by { InstallFirstIsExact(slots, indices, entries, n - 1); }
      TotalUpdate(rest, k, rest[k].(entry := Some(entries[n - 1])), SlotCount(o));
      assert entries[..n] == entries[..n - 1] + [entries[n - 1]];
      TotalAppend(entries[..n - 1], entries[n - 1], EntryCount(o));
    }
  }

  lemma InstallEvolves(slots: seq<HandleSlot>, indices: seq<nat>, entries: seq<HandleEntry>)
    requires TableInv(slots) && |indices| == |entries| && Vacancies(slots, indices)
    ensures TableInv(InstallFirst(slots, indices, entries, |indices|))
    ensures Evolves(slots, InstallFirst(slots, indices, entries, |indices|))
  {
    InstallFirstIsExact(slots, indices, entries, |indices|);
    var after := InstallFirst(slots, indices, entries, |indices|);
    forall k | 0 <= k < |slots| ensures SlotInv(after[k]) && SlotEvolves(slots[k], after[k]) {
      assert SlotInv(slots[k]);
    }
  }

  /** Reserving and then installing: the whole effect on the receiving table. */
  function Received(slots: seq<HandleSlot>, entries: seq<HandleEntry>): seq<HandleSlot>
    requires TableInv(slots) && |entries| <= Available(slots)
  {
    ReservationIsSound(slots, |entries|);
    InstallFirst(Grown(slots, |entries|), ReservedIndices(slots, |entries|), entries, |entries|)
  }

  lemma ReceivedEvolves(slots: seq<HandleSlot>, entries: seq<HandleEntry>)
    requires TableInv(slots) && |entries| <= Available(slots)
    ensures Vacancies(Grown(slots, |entries|), ReservedIndices(slots, |entries|))
    ensures TableInv(Received(slots, entries)) && Evolves(slots, Received(slots, entries))
  {
    ReservationIsSound(slots, |entries|);
    var grown := Grown(slots, |entries|);
    InstallEvolves(grown, ReservedIndices(slots, |entries|), entries);
    EvolvesTransitive(slots, grown, Received(slots, entries));
  }

  /** Receiving adds exactly the received references. */
  lemma ReceivedAddsRefs(slots: seq<HandleSlot>, entries: seq<HandleEntry>, o: Object)
    requires TableInv(slots) && |entries| <= Available(slots)
    ensures TableCount(Received(slots, entries), o) == TableCount(slots, o) + EntriesCount(entries, o)
  {
    ReservationIsSound(slots, |entries|);
    var grown := Grown(slots, |entries|);
    InstallFirstAddsRefs(grown, ReservedIndices(slots, |entries|), entries, |entries|, o);
    assert entries[..|entries|] == entries;
    GrownKeepsRefs(slots, |entries|, o);
  }

  lemma GrownKeepsRefs(slots: seq<HandleSlot>, count: nat, o: Object)
    ensures TableCount(Grown(slots, count), o) == TableCount(slots, o)
  {
    var added := Grown(slots, count)[|slots|..];
    assert Grown(slots, count) == slots + added;
    TotalConcat(slots, added, SlotCount(o));
    TotalZero(added, SlotCount(o));
  }

  // ------------------------------------------------------------------- naming

  /** What a handle names. */
  function Naming(slots: seq<HandleSlot>, handle: u32): Option<HandleEntry>
  {
    if Lookup(slots, handle).Some? then Some(EntryOf(slots, handle)) else None
  }

  predicate Moved(batch: seq<Disposition>, handle: u32)
  {
    exists i :: 0 <= i < |batch| && batch[i].handle == handle && batch[i].operation.Move?
  }

  /** Exactly the moved handles stop naming anything. */
  lemma TakenNames(slots: seq<HandleSlot>, batch: seq<Disposition>, handle: u32)
    requires TableInv(slots) && BatchOk(slots, batch)
    ensures Naming(TakeMoves(slots, batch), handle) == if Moved(batch, handle) then None else Naming(slots, handle)
  {
    var parts := HandleParts(handle);
    if parts.Some? && parts.value.index < |slots| {
      var k := parts.value.index;
      TakeFirstIsExact(slots, batch, |batch|, k);
      assert SlotInv(slots[k]);
      forall i | 0 <= i < |batch| && batch[i].operation.Move? && Source(slots, batch, i) == k
        ensures Lookup(slots, handle).Some? ==> batch[i].handle == handle
      {
        assert Permits(slots, batch[i]);
        if Lookup(slots, handle).Some? { DistinctHandlesNameDistinctSlots(slots, handle, batch[i].handle); }
      }
    }
    forall i | 0 <= i < |batch| && batch[i].handle == handle ensures Lookup(slots, handle).Some? {
      assert Permits(slots, batch[i]);
    }
  }

  ghost predicate Distinct(handles: seq<u32>)
  {
    forall i, j :: 0 <= i < j < |handles| ==> handles[i] != handles[j]
  }

  /** New handles name the entries in order; every other handle names what it named. */
  ghost predicate Installed(
    before: seq<HandleSlot>, after: seq<HandleSlot>, handles: seq<u32>, entries: seq<HandleEntry>)
  {
    && |handles| == |entries| && Distinct(handles)
    && (forall i :: 0 <= i < |handles| ==> Naming(before, handles[i]) == None)
    && (forall i :: 0 <= i < |handles| ==> Naming(after, handles[i]) == Some(entries[i]))
    && (forall handle: u32 :: handle !in handles ==> Naming(after, handle) == Naming(before, handle))
  }

  /** The handles that filling the given slots brings into use. */
  function NewHandles(slots: seq<HandleSlot>, indices: seq<nat>): (handles: seq<u32>)
    requires TableInv(slots) && forall i :: 0 <= i < |indices| ==> indices[i] < |slots| && IsVacant(slots[indices[i]])
    ensures |handles| == |indices|
  {
    seq(|indices|, i requires 0 <= i < |indices| =>
      assert SlotInv(slots[indices[i]]) && IsVacant(slots[indices[i]]);
      HandleFromParts(indices[i], slots[indices[i]].generation))
  }

  lemma NewHandleParts(slots: seq<HandleSlot>, indices: seq<nat>, i: nat)
    requires TableInv(slots) && Vacancies(slots, indices) && i < |indices|
    ensures HandleParts(NewHandles(slots, indices)[i]) == Some(Parts(indices[i], slots[indices[i]].generation))
  {
    assert SlotInv(slots[indices[i]]);
    PackingIsBijective(indices[i], slots[indices[i]].generation, NewHandles(slots, indices)[i]);
  }

  lemma IsNewHandle(slots: seq<HandleSlot>, indices: seq<nat>, i: nat, handle: u32)
    requires TableInv(slots) && Vacancies(slots, indices) && i < |indices|
    requires HandleParts(handle) == Some(Parts(indices[i], slots[indices[i]].generation))
    ensures handle == NewHandles(slots, indices)[i]
  {
    assert SlotInv(slots[indices[i]]);
    PackingIsBijective(indices[i], slots[indices[i]].generation, handle);
  }

  lemma FilledNames(slots: seq<HandleSlot>, indices: seq<nat>, entries: seq<HandleEntry>, handle: u32)
    requires TableInv(slots) && Vacancies(slots, indices) && |indices| == |entries|
    requires handle !in NewHandles(slots, indices)
    ensures Naming(InstallFirst(slots, indices, entries, |entries|), handle) == Naming(slots, handle)
  {
    var after, parts := InstallFirst(slots, indices, entries, |entries|), HandleParts(handle);
    InstallFirstIsExact(slots, indices, entries, |entries|);
    assert indices[..|entries|] == indices;
    if parts.Some? && parts.value.index < |slots| && parts.value.index in indices {
      var i :| 0 <= i < |indices| && indices[i] == parts.value.index;
      assert SlotInv(slots[indices[i]]);
      PackingIsBijective(indices[i], slots[indices[i]].generation, handle);
      assert NewHandles(slots, indices)[i] in NewHandles(slots, indices);
    }
  }

  lemma FillInstalls(slots: seq<HandleSlot>, indices: seq<nat>, entries: seq<HandleEntry>)
    requires TableInv(slots) && Vacancies(slots, indices) && |indices| == |entries|
    ensures Installed(slots, InstallFirst(slots, indices, entries, |entries|), NewHandles(slots, indices), entries)
  {
    var handles := NewHandles(slots, indices);
    InstallFirstIsExact(slots, indices, entries, |entries|);
    forall i | 0 <= i < |handles|
      ensures Naming(slots, handles[i]) == None
      ensures Naming(InstallFirst(slots, indices, entries, |entries|), handles[i]) == Some(entries[i])
    {
      NewHandleParts(slots, indices, i);
    }
    forall i, j | 0 <= i < j < |handles| ensures handles[i] != handles[j] {
      NewHandleParts(slots, indices, i);
      NewHandleParts(slots, indices, j);
    }
    forall handle: u32 | handle !in handles
      ensures Naming(InstallFirst(slots, indices, entries, |entries|), handle) == Naming(slots, handle)
    {
      FilledNames(slots, indices, entries, handle);
    }
  }

  /** Receiving brings exactly the entries into the table, under new handles. */
  lemma ReceivedNames(slots: seq<HandleSlot>, entries: seq<HandleEntry>) returns (handles: seq<u32>)
    requires TableInv(slots) && |entries| <= Available(slots)
    ensures Installed(slots, Received(slots, entries), handles, entries)
  {
    var grown, indices := Grown(slots, |entries|), ReservedIndices(slots, |entries|);
    ReservationIsSound(slots, |entries|);
    handles := NewHandles(grown, indices);
    FillInstalls(grown, indices, entries);
    GrownInstalls(slots, |entries|, Received(slots, entries), handles, entries);
  }

  // ---------------------------------------------------------------- methods

  /** Removes every moved handle from the source table. */
  method TakeBatch(table: HandleTable, batch: seq<Disposition>)
    requires table.Valid() && BatchOk(table.slots, batch)
    modifies table`slots
    ensures table.Valid() && table.slots == TakeMoves(old(table.slots), batch)
  {
    ghost var slots := table.slots;
    for i := 0 to |batch|
      invariant table.slots == TakeFirst(slots, batch, i)
    {
      if batch[i].operation.Move? {
        NextSourceStillHeld(slots, batch, i);
        var parts := HandleParts(batch[i].handle);
        table.slots := table.slots[parts.value.index := Vacate(table.slots[parts.value.index])];
      }
    }
    TakeMovesEvolves(slots, batch);
    IssuedSurvives(slots, table.slots, table.issued);
  }

  lemma GrownNames(slots: seq<HandleSlot>, count: nat, handle: u32)
    ensures Naming(Grown(slots, count), handle) == Naming(slots, handle)
  {
  }

  lemma GrownInstalls(slots: seq<HandleSlot>, count: nat, after: seq<HandleSlot>, handles: seq<u32>,
    entries: seq<HandleEntry>)
    requires Installed(Grown(slots, count), after, handles, entries)
    ensures Installed(slots, after, handles, entries)
  {
    forall handle: u32 ensures Naming(Grown(slots, count), handle) == Naming(slots, handle) {
      GrownNames(slots, count, handle);
    }
  }

  /** Fills reserved slots in order and returns the new handles, none ever issued before. */
  method InstallEntries(table: HandleTable, indices: seq<nat>, entries: seq<HandleEntry>) returns (handles: seq<u32>)
    requires table.Valid() && |indices| == |entries| && Vacancies(table.slots, indices)
    modifies table
    ensures table.Valid() && table.slots == InstallFirst(old(table.slots), indices, entries, |entries|)
    ensures table.issued == old(table.issued) + handles && Installed(old(table.slots), table.slots, handles, entries)
  {
    handles := [];
    ghost var slots := table.slots;
    for i := 0 to |entries|
      invariant table.Valid() && table.slots == InstallFirst(slots, indices, entries, i)
      invariant table.issued == old(table.issued) + handles && handles == NewHandles(slots, indices)[..i]
    {
      assert indices[i] !in indices[..i];
      InstallFirstElsewhere(slots, indices, entries, i, indices[i]);
      var h := table.InsertReserved(indices[i], entries[i].obj, entries[i].rights);
      IsNewHandle(slots, indices, i, h);
      handles := handles + [h];
    }
    FillInstalls(slots, indices, entries);
  }

  /** Reserve-then-install into one table: all of it or none of it. */
  method Receive(table: HandleTable, entries: seq<HandleEntry>) returns (r: Result<seq<u32>, IpcError>)
    requires table.Valid()
    modifies table
    ensures table.Valid()
    ensures r.Err? ==> table.slots == old(table.slots) && table.issued == old(table.issued)
    ensures r.Err? && r.error != OutOfMemory ==> r.error == HandleTableFull && |entries| > Available(old(table.slots))
    ensures r.Ok? ==> |entries| <= Available(old(table.slots)) && table.slots == Received(old(table.slots), entries)
    ensures r.Ok? ==> table.issued == old(table.issued) + r.value
    ensures r.Ok? ==> Installed(old(table.slots), table.slots, r.value, entries)
  {
    var reserved := table.ReserveSlots(|entries|);
    if reserved.Err? { return Err(reserved.error); }
    ReceivedEvolves(old(table.slots), entries);
    var handles := InstallEntries(table, reserved.value, entries);
    GrownInstalls(old(table.slots), |entries|, table.slots, handles, entries);
    return Ok(handles);
  }

  /** Installs references to objects that are still to be made: when making them fails, the
      reserved slots stay behind, vacant. */
  method ReceiveNew(table: HandleTable, entries: seq<HandleEntry>) returns (r: Result<seq<u32>, IpcError>)
    requires table.Valid()
    modifies table
    ensures table.Valid() && (r.Err? ==> table.issued == old(table.issued))
    ensures r.Err? && r.error != OutOfMemory ==> r.error == HandleTableFull && |entries| > Available(old(table.slots))
    ensures r.Err? && table.slots != old(table.slots) ==>
              |entries| <= Available(old(table.slots)) && table.slots == Grown(old(table.slots), |entries|)
    ensures r.Ok? ==> |entries| <= Available(old(table.slots)) && table.slots == Received(old(table.slots), entries)
    ensures r.Ok? ==> table.issued == old(table.issued) + r.value
    ensures r.Ok? ==> Installed(old(table.slots), table.slots, r.value, entries)
  {
    var reserved := table.ReserveSlots(|entries|);
    if reserved.Err? { return Err(reserved.error); }
    var ok := TryAllocate();
    if !ok { return Err(OutOfMemory); }
    ReceivedEvolves(old(table.slots), entries);
    var handles := InstallEntries(table, reserved.value, entries);
    GrownInstalls(old(table.slots), |entries|, table.slots, handles, entries);
    return Ok(handles);
  }
}
