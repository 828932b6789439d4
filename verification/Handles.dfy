/** Generation-tagged handle tables: packing, reservation, and why a raw handle value
    can never come back to life. */
module Handles {
  import opened Objects

  const HANDLE_TABLE_CAPACITY: nat := 256
  const INDEX_SPAN: nat := 4096
  const GENERATION_MASK: nat := 0xF_FFFF

  datatype Parts = Parts(index: nat, generation: nat)

  datatype HandleSlot = HandleSlot(generation: nat, entry: Option<HandleEntry>)

  const VACANT_SLOT := HandleSlot(1, None)

  // ---------------------------------------------------------------- packing

  function HandleFromParts(index: nat, generation: nat): u32
    requires index < HANDLE_TABLE_CAPACITY && 1 <= generation <= GENERATION_MASK
  {
    generation * INDEX_SPAN + index
  }

  function HandleParts(raw: u32): Option<Parts>
  {
    var generation := raw / INDEX_SPAN;
    var index := raw % INDEX_SPAN;
    if raw != 0 && generation != 0 then Some(Parts(index, generation)) else None
  }

  /** Packing and unpacking are mutual inverses, so distinct parts give distinct handles. */
  lemma PackingIsBijective(index: nat, generation: nat, raw: u32)
    requires index < HANDLE_TABLE_CAPACITY && 1 <= generation <= GENERATION_MASK
    ensures HandleFromParts(index, generation) == raw <==> HandleParts(raw) == Some(Parts(index, generation))
    ensures HandleFromParts(index, generation) != 0
  {
    assert (generation * INDEX_SPAN + index) / INDEX_SPAN == generation;
    assert raw == raw / INDEX_SPAN * INDEX_SPAN + raw % INDEX_SPAN;
  }

  // ----------------------------------------------------------------- slots

  function AdvanceGeneration(generation: nat): nat
  {
    if generation == GENERATION_MASK then 0 else generation + 1
  }

  function Vacate(slot: HandleSlot): HandleSlot
  {
    HandleSlot(AdvanceGeneration(slot.generation), None)
  }

  predicate IsVacant(slot: HandleSlot)
  {
    slot.entry.None? && slot.generation != 0
  }

  predicate SlotInv(slot: HandleSlot)
  {
    slot.generation <= GENERATION_MASK && (slot.entry.Some? ==> slot.generation != 0)
  }

  predicate TableInv(slots: seq<HandleSlot>)
  {
    |slots| <= HANDLE_TABLE_CAPACITY && forall i :: 0 <= i < |slots| ==> SlotInv(slots[i])
  }

  /** The slot index a handle names, if the handle is currently valid. */
  function Lookup(slots: seq<HandleSlot>, raw: u32): (r: Option<nat>)
    ensures r.Some? ==> r.value < |slots| && slots[r.value].entry.Some?
  {
    match HandleParts(raw)
    case None => None
    case Some(Parts(index, generation)) =>
      if index < |slots| && slots[index].generation == generation && slots[index].entry.Some?
      then Some(index) else None
  }

  function EntryOf(slots: seq<HandleSlot>, raw: u32): HandleEntry
    requires Lookup(slots, raw).Some?
  {
    slots[Lookup(slots, raw).value].entry.value
  }

  lemma DistinctHandlesNameDistinctSlots(slots: seq<HandleSlot>, a: u32, b: u32)
    requires Lookup(slots, a).Some? && Lookup(slots, b).Some?
    ensures Lookup(slots, a) == Lookup(slots, b) <==> a == b
  {
    assert a == a / INDEX_SPAN * INDEX_SPAN + a % INDEX_SPAN;
    assert b == b / INDEX_SPAN * INDEX_SPAN + b % INDEX_SPAN;
  }

  // ----------------------------------------------------------- reservation

  /** Indices below `n` whose slot is vacant and not retired, in table order. */
  function VacantBelow(slots: seq<HandleSlot>, n: nat): seq<nat>
    requires n <= |slots|
  {
    if n == 0 then [] else
      VacantBelow(slots, n - 1) + (if IsVacant(slots[n - 1]) then [n - 1] else [])
  }

  function Available(slots: seq<HandleSlot>): nat
    requires |slots| <= HANDLE_TABLE_CAPACITY
  {
    |VacantBelow(slots, |slots|)| + (HANDLE_TABLE_CAPACITY - |slots|)
  }

  /** Existing vacancies in order, then never-used slots. */
  function Candidates(slots: seq<HandleSlot>): seq<nat>
    requires |slots| <= HANDLE_TABLE_CAPACITY
  {
    VacantBelow(slots, |slots|) + seq(HANDLE_TABLE_CAPACITY - |slots|, k => |slots| + k)
  }

  /** First-fit choice. */
  function ReservedIndices(slots: seq<HandleSlot>, count: nat): seq<nat>
    requires |slots| <= HANDLE_TABLE_CAPACITY && count <= Available(slots)
  {
    Candidates(slots)[..count]
  }

  function Grown(slots: seq<HandleSlot>, count: nat): seq<HandleSlot>
  {
    var vacant := |VacantBelow(slots, |slots|)|;
    slots + seq(if count <= vacant then 0 else count - vacant, _ => VACANT_SLOT)
  }

  ghost predicate Ascending(s: seq<nat>)
  {
    forall i, j :: 0 <= i < j < |s| ==> s[i] < s[j]
  }

  lemma {:induction false} VacantBelowIsExact(slots: seq<HandleSlot>, n: nat)
    requires n <= |slots|
    ensures Ascending(VacantBelow(slots, n))
    ensures forall k: nat :: k in VacantBelow(slots, n) <==> k < n && IsVacant(slots[k])
  {
    if n > 0 {
      VacantBelowIsExact(slots, n - 1);
      var shorter := VacantBelow(slots, n - 1);
      assert forall i :: 0 <= i < |shorter| ==> shorter[i] in shorter;
    }
  }

  /** Reservation yields distinct, usable indices below the capacity, and takes the lowest ones. */
  lemma ReservationIsSound(slots: seq<HandleSlot>, count: nat)
    requires TableInv(slots) && count <= Available(slots)
    ensures TableInv(Grown(slots, count))
    ensures |ReservedIndices(slots, count)| == count && Ascending(ReservedIndices(slots, count))
    ensures forall i :: 0 <= i < count ==>
              var k := ReservedIndices(slots, count)[i]; k < |Grown(slots, count)| && IsVacant(Grown(slots, count)[k])
    ensures forall k: nat, m: nat :: m in ReservedIndices(slots, count) && k < m && k < |slots| && IsVacant(slots[k])
              ==> k in ReservedIndices(slots, count)
  {
    VacantBelowIsExact(slots, |slots|);
    CandidatesAreUsable(slots);
    var vacant, all := VacantBelow(slots, |slots|), Candidates(slots);
    forall k: nat, m: nat | m in all[..count] && k < m && k < |slots| && IsVacant(slots[k])
      ensures k in all[..count]
    {
      EarlierIsReserved(all, count, vacant, k, m);
    }
  }

  lemma CandidatesAreUsable(slots: seq<HandleSlot>)
    requires |slots| <= HANDLE_TABLE_CAPACITY
    ensures Ascending(Candidates(slots)) && |Candidates(slots)| == Available(slots)
    ensures forall i :: 0 <= i < |VacantBelow(slots, |slots|)| ==>
              Candidates(slots)[i] < |slots| && IsVacant(slots[Candidates(slots)[i]])
  {
    VacantBelowIsExact(slots, |slots|);
    var vacant := VacantBelow(slots, |slots|);
    assert forall i :: 0 <= i < |vacant| ==> vacant[i] in vacant;
  }

  lemma EarlierIsReserved(all: seq<nat>, count: nat, vacant: seq<nat>, k: nat, m: nat)
    requires Ascending(all) && count <= |all| && vacant <= all && k in vacant && m in all[..count] && k < m
    ensures k in all[..count]
  {
    var j :| 0 <= j < count && all[j] == m;
    var i :| 0 <= i < |vacant| && vacant[i] == k;
    assert all[i] == k;
    assert all[..count][i] == k;
  }

  // -------------------------------------------------------- no resurrection

  /** A handle of this slot with generation `g` can no longer become valid. */
  predicate Spent(slot: HandleSlot, g: nat)
  {
    slot.generation == 0 || slot.generation > g
  }

  /** What any sequence of table operations may do to one slot. */
  predicate SlotEvolves(a: HandleSlot, b: HandleSlot)
  {
    || b.generation == 0
    || (a.generation != 0 && b.generation > a.generation)
    || (a.generation == b.generation && (a.entry.Some? ==> b.entry == a.entry))
  }

  ghost predicate Evolves(a: seq<HandleSlot>, b: seq<HandleSlot>)
  {
    |a| <= |b| && forall i :: 0 <= i < |a| ==> SlotEvolves(a[i], b[i])
  }

  lemma EvolvesTransitive(a: seq<HandleSlot>, b: seq<HandleSlot>, c: seq<HandleSlot>)
    requires Evolves(a, b) && Evolves(b, c)
    requires TableInv(a) && TableInv(b) && TableInv(c)
    ensures Evolves(a, c)
  {
    forall i | 0 <= i < |a| ensures SlotEvolves(a[i], c[i]) {
      assert SlotEvolves(a[i], b[i]) && SlotEvolves(b[i], c[i]) && SlotInv(b[i]) && SlotInv(c[i]);
    }
  }

  /** Along any evolution a handle that was live keeps naming the same entry until it
      dies, and once dead it is dead for good. */
  lemma HandleLifeIsOneInterval(a: seq<HandleSlot>, b: seq<HandleSlot>, c: seq<HandleSlot>, raw: u32)
    requires TableInv(a) && TableInv(b) && TableInv(c)
    requires Evolves(a, b) && Evolves(b, c)
    requires Lookup(a, raw).Some?
    ensures Lookup(b, raw).None? ==> Lookup(c, raw).None?
    ensures Lookup(c, raw).Some? ==> EntryOf(c, raw) == EntryOf(a, raw)
  {
    EvolvesTransitive(a, b, c);
    var index := Lookup(a, raw).value;
    assert SlotEvolves(a[index], b[index]) && SlotEvolves(b[index], c[index]) && SlotEvolves(a[index], c[index]);
  }

  /** Every handle value ever returned: no value twice, and each is live or spent. */
  ghost predicate IssuedInv(slots: seq<HandleSlot>, issued: seq<u32>)
  {
    && (forall i, j :: 0 <= i < j < |issued| ==> issued[i] != issued[j])
    && (forall h :: h in issued ==>
          && HandleParts(h).Some? && HandleParts(h).value.index < |slots|
          && (Lookup(slots, h).Some? || Spent(slots[HandleParts(h).value.index], HandleParts(h).value.generation)))
  }

  lemma IssuedSurvives(a: seq<HandleSlot>, b: seq<HandleSlot>, issued: seq<u32>)
    requires TableInv(a) && TableInv(b) && Evolves(a, b) && IssuedInv(a, issued)
    ensures IssuedInv(b, issued)
  {
    forall h | h in issued
      ensures Lookup(b, h).Some? || Spent(b[HandleParts(h).value.index], HandleParts(h).value.generation)
    {
      var k := HandleParts(h).value.index;
      assert SlotEvolves(a[k], b[k]);
    }
  }

  /** The handle of a vacant slot has never been returned before. */
  lemma FreshHandle(slots: seq<HandleSlot>, issued: seq<u32>, index: nat)
    requires TableInv(slots) && IssuedInv(slots, issued) && index < |slots| && IsVacant(slots[index])
    ensures HandleFromParts(index, slots[index].generation) !in issued
  {
    assert SlotInv(slots[index]);
    PackingIsBijective(index, slots[index].generation, HandleFromParts(index, slots[index].generation));
  }

  // ------------------------------------------------------------------ class

  class HandleTable {
    var slots: seq<HandleSlot>
    ghost var issued: seq<u32>

    ghost predicate Valid()
      reads this
    {
      TableInv(slots) && IssuedInv(slots, issued)
    }

    constructor ()
      ensures Valid() && slots == [] && issued == []
    {
      slots := [];
      issued := [];
    }

    method ValidatedSlot(handle: u32) returns (r: Result<nat, IpcError>)
      ensures r == match Lookup(slots, handle) case Some(i) => Ok(i) case None => Err(InvalidHandle)
    {
      var parts := HandleParts(handle);
      if parts.None? { return Err(InvalidHandle); }
      var index := parts.value.index;
      if index >= |slots| { return Err(InvalidHandle); }
      if slots[index].generation != parts.value.generation || slots[index].entry.None? {
        return Err(InvalidHandle);
      }
      return Ok(index);
    }

    method CountVacant() returns (vacant: nat)
      ensures vacant == |VacantBelow(slots, |slots|)|
    {
      vacant := 0;
      for i := 0 to |slots|
        invariant vacant == |VacantBelow(slots, i)|
      {
        if IsVacant(slots[i]) { vacant := vacant + 1; }
      }
    }

    /** The first `count` vacancies, or all of them when there are fewer. */
    method FirstVacant(count: nat) returns (reserved: seq<nat>)
      requires count > 0
      ensures var vacant := VacantBelow(slots, |slots|);
              reserved == if count <= |vacant| then vacant[..count] else vacant
    {
      reserved := [];
      for i := 0 to |slots|
        invariant reserved == VacantBelow(slots, i) && |reserved| < count
      {
        if IsVacant(slots[i]) {
          reserved := reserved + [i];
          if |reserved| == count {
            VacantBelowMonotone(slots, i + 1, |slots|);
            return;
          }
        }
      }
    }

    /** Pushes never-used slots until `count` indices are reserved. */
    method AppendVacant(found: seq<nat>, count: nat) returns (reserved: seq<nat>)
      requires |found| <= count
      modifies this`slots
      ensures slots == old(slots) + seq(count - |found|, _ => VACANT_SLOT)
      ensures reserved == found + seq(count - |found|, k => |old(slots)| + k)
    {
      reserved := found;
      while |reserved| < count
        invariant |found| <= |reserved| <= count
        invariant slots == old(slots) + seq(|reserved| - |found|, _ => VACANT_SLOT)
        invariant reserved == found + seq(|reserved| - |found|, k => |old(slots)| + k)
      {
        reserved := reserved + [|slots|];
        slots := slots + [VACANT_SLOT];
      }
    }

    /** Fails exactly when too few slots remain (or storage cannot be had), changing nothing;
        otherwise reserves the lowest usable indices, growing the table only as needed. */
    method ReserveSlots(count: nat) returns (r: Result<seq<nat>, IpcError>)
      requires Valid()
      modifies this`slots
      ensures Valid() && Evolves(old(slots), slots)
      ensures r.Err? ==> slots == old(slots) && (r.error == OutOfMemory || r.error == HandleTableFull)
      ensures count > Available(old(slots)) <==> r == Err(HandleTableFull)
      ensures r.Ok? ==> slots == Grown(old(slots), count) && r.value == ReservedIndices(old(slots), count)
    {
      if count == 0 { return Ok([]); }
      var vacant := CountVacant();
      if count > vacant + (HANDLE_TABLE_CAPACITY - |slots|) { return Err(HandleTableFull); }
      var ok := TryAllocate();
      if !ok { return Err(OutOfMemory); }
      var reserved := FirstVacant(count);
      if |reserved| == count { return Ok(reserved); }
      ok := TryAllocate();
      if !ok { return Err(OutOfMemory); }
      reserved := AppendVacant(reserved, count);
      ReservationIsSound(old(slots), count);
      IssuedSurvives(old(slots), slots, issued);
      return Ok(reserved);
    }

    method InsertReserved(index: nat, obj: Object, rights: Rights) returns (handle: u32)
      requires Valid() && index < |slots| && IsVacant(slots[index])
      modifies this
      ensures Valid() && Evolves(old(slots), slots)
      ensures slots == old(slots)[index := HandleSlot(old(slots)[index].generation, Some(HandleEntry(obj, rights)))]
      ensures Lookup(slots, handle) == Some(index) && handle !in old(issued) && issued == old(issued) + [handle]
      ensures HandleParts(handle) == Some(Parts(index, old(slots)[index].generation))
    {
      assert SlotInv(slots[index]);
      handle := HandleFromParts(index, slots[index].generation);
      FreshHandle(slots, issued, index);
      PackingIsBijective(index, slots[index].generation, handle);
      slots := slots[index := slots[index].(entry := Some(HandleEntry(obj, rights)))];
      IssuedSurvives(old(slots), slots, issued);
      issued := issued + [handle];
    }

    /** Removes the entry, leaving it to the caller to drop the reference. */
    method HandleClose(handle: u32) returns (r: Result<HandleEntry, IpcError>)
      requires Valid()
      modifies this`slots
      ensures Valid() && Evolves(old(slots), slots)
      ensures Lookup(old(slots), handle).None? ==> r == Err(InvalidHandle) && slots == old(slots)
      ensures Lookup(old(slots), handle).Some? ==>
                var i := Lookup(old(slots), handle).value;
                r == Ok(EntryOf(old(slots), handle)) && slots == old(slots)[i := Vacate(old(slots)[i])]
      ensures Lookup(slots, handle).None?
    {
      var found := ValidatedSlot(handle);
      if found.Err? { return Err(found.error); }
      var index := found.value;
      r := Ok(slots[index].entry.value);
      assert SlotInv(slots[index]);
      slots := slots[index := Vacate(slots[index])];
      IssuedSurvives(old(slots), slots, issued);
    }
  }

  lemma {:induction false} VacantBelowMonotone(slots: seq<HandleSlot>, m: nat, n: nat)
    requires m <= n <= |slots|
    ensures VacantBelow(slots, m) <= VacantBelow(slots, n)
  {
    if m < n { VacantBelowMonotone(slots, m, n - 1); }
  }
}
