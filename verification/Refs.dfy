/** Counting references: how often an object is held by a sequence of containers. */
module Refs {
  import opened Objects
  import opened Handles
  import opened Totals

  ghost function EntryCount(o: Object): HandleEntry -> nat
  {
    (e: HandleEntry) => if e.obj == o then 1 else 0
  }

  ghost function SlotCount(o: Object): HandleSlot -> nat
  {
    (slot: HandleSlot) => if slot.entry.Some? && slot.entry.value.obj == o then 1 else 0
  }

  /** References to `o` held by a list of entries, and by a handle table. */
  ghost function EntriesCount(entries: seq<HandleEntry>, o: Object): nat { Total(entries, EntryCount(o)) }

  ghost function TableCount(slots: seq<HandleSlot>, o: Object): nat { Total(slots, SlotCount(o)) }
}
