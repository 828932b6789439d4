/** The driver's 32-bit slot masks as sets of slots: each bit operation it performs is the
    set operation the port model uses. */
module SlotMasks {
  import opened Ahci

  predicate OneBit(bit: bv32) { bit != 0 && bit & (bit - 1) == 0 }

  /** A bit for each slot, no two of them the same. */
  ghost predicate Independent(bit: nat -> bv32)
  {
    && (forall k: nat :: k < MAX_SLOTS ==> Single(bit, k))
    && (forall j: nat, k: nat :: j < k < MAX_SLOTS ==> Apart(bit, j, k))
  }

  predicate Single(bit: nat -> bv32, k: nat) { OneBit(bit(k)) }

  predicate Apart(bit: nat -> bv32, j: nat, k: nat) { bit(j) & bit(k) == 0 }

  /** The bit `1 << k`. */
  function SlotBit(k: nat): bv32 { if k < MAX_SLOTS then (1 as bv32) << k else 0 }

  lemma SlotBitIsOne(k: nat)
    requires k < MAX_SLOTS
    ensures OneBit(SlotBit(k))
  {
  }

  lemma SlotBitsDiffer(j: nat, k: nat)
    requires j < k < MAX_SLOTS
    ensures SlotBit(j) & SlotBit(k) == 0
  {
  }

  lemma SlotBitsAreIndependent()
    ensures Independent(SlotBit)
  {
    forall k: nat | k < MAX_SLOTS ensures Single(SlotBit, k) { SlotBitIsOne(k); }
    forall j: nat, k: nat | j < k < MAX_SLOTS ensures Apart(SlotBit, j, k) { SlotBitsDiffer(j, k); }
  }

  /** The slots whose bit is set. */
  ghost function SlotsOf(mask: bv32, bit: nat -> bv32): set<nat>
  {
    set k: nat | k < MAX_SLOTS && mask & bit(k) != 0
  }

  function CompletedMask(issued: bv32, sact: bv32, ci: bv32): bv32 { issued & !(sact | ci) }

  lemma CompletedBit(issued: bv32, sact: bv32, ci: bv32, b: bv32)
    requires OneBit(b)
    ensures (issued & !(sact | ci)) & b != 0 <==> issued & b != 0 && sact & b == 0 && ci & b == 0
  {
  }

  lemma CompletedAt(issued: bv32, sact: bv32, ci: bv32, bit: nat -> bv32, k: nat)
    requires Independent(bit) && k < MAX_SLOTS
    ensures (issued & !(sact | ci)) & bit(k) != 0 <==> issued & bit(k) != 0 && sact & bit(k) == 0 && ci & bit(k) == 0
  {
    assert Single(bit, k);
    CompletedBit(issued, sact, ci, bit(k));
  }

  /** The mask of completed slots holds exactly the slots the port model retires. */
  lemma CompletedMaskIsCompleted(issued: bv32, sact: bv32, ci: bv32, bit: nat -> bv32)
    requires Independent(bit)
    ensures SlotsOf(CompletedMask(issued, sact, ci), bit)
         == Completed(SlotsOf(issued, bit), SlotsOf(sact, bit), SlotsOf(ci, bit))
  {
    forall k: nat | k < MAX_SLOTS { CompletedAt(issued, sact, ci, bit, k); }
  }

  lemma ChangedBit(mask: bv32, b: bv32, other: bv32)
    requires OneBit(b) && OneBit(other) && (b & other == 0 || b == other)
    ensures (mask | b) & other != 0 <==> mask & other != 0 || b == other
    ensures (mask & !b) & other != 0 <==> mask & other != 0 && b != other
  {
  }

  lemma BitsDiffer(bit: nat -> bv32, j: nat, k: nat)
    requires Independent(bit) && j < MAX_SLOTS && k < MAX_SLOTS && j != k
    ensures bit(j) & bit(k) == 0 && bit(j) != bit(k)
  {
    assert Single(bit, j) && Single(bit, k);
    assert if j < k then Apart(bit, j, k) else Apart(bit, k, j);
  }

  lemma ChangedAt(mask: bv32, bit: nat -> bv32, k: nat, j: nat)
    requires Independent(bit) && j < MAX_SLOTS && k < MAX_SLOTS
    ensures (mask | bit(k)) & bit(j) != 0 <==> mask & bit(j) != 0 || j == k
    ensures (mask & !bit(k)) & bit(j) != 0 <==> mask & bit(j) != 0 && j != k
  {
    assert Single(bit, j) && Single(bit, k);
    if j != k { BitsDiffer(bit, k, j); }
    ChangedBit(mask, bit(k), bit(j));
  }

  /** Issuing a slot adds exactly that slot. */
  lemma IssuingAdds(mask: bv32, bit: nat -> bv32, k: nat)
    requires Independent(bit) && k < MAX_SLOTS
    ensures SlotsOf(mask | bit(k), bit) == SlotsOf(mask, bit) + {k}
  {
    forall j: nat | j < MAX_SLOTS { ChangedAt(mask, bit, k, j); }
  }

  /** Retiring a slot removes exactly that slot. */
  lemma RetiringRemoves(mask: bv32, bit: nat -> bv32, k: nat)
    requires Independent(bit) && k < MAX_SLOTS
    ensures SlotsOf(mask & !bit(k), bit) == SlotsOf(mask, bit) - {k}
  {
    forall j: nat | j < MAX_SLOTS { ChangedAt(mask, bit, k, j); }
  }
}
