/** What a registry holds after any run of changes. */
module RegistryRuns {
  import opened Fields
  import opened Objects
  import opened Registry
  import opened RegistryStore

  /** A run: the registry before and after each change. */
  ghost predicate IsRun(states: seq<seq<InstalledApp>>, changes: seq<Change>, reserved: seq<Bytes>, rules: P.Rules)
  {
    && |states| == |changes| + 1
    && forall i :: 0 <= i < |changes| ==> Carried(states[i], changes[i], states[i + 1], reserved, rules)
  }

  /** Changes that write the whole entry of an id, or take it away. */
  predicate Writes(c: Change, id: Bytes)
  {
    match c
    case Installed(p, _, _) => p.appId == id
    case Updated(p, _, _) => p.appId == id
    case Removed(k) => k == id
    case Trusted(_, _) => false
    case Restored(_) => true
  }

  /** Trust as last set among the changes from `i` on, or else as it was. */
  function TrustSince(changes: seq<Change>, i: nat, id: Bytes, otherwise: bool): bool
    decreases |changes|
  {
    if |changes| <= i then otherwise
    else
      var last := changes[|changes| - 1];
      if last.Trusted? && last.id == id then last.trusted else TrustSince(changes[..|changes| - 1], i, id, otherwise)
  }

  function WithTrust(e: Option<InstalledApp>, changes: seq<Change>, i: nat, id: Bytes): Option<InstalledApp>
  {
    if e.None? then None else Some(e.value.(wasmTrusted := TrustSince(changes, i, id, e.value.wasmTrusted)))
  }

  lemma RunShortens(states: seq<seq<InstalledApp>>, changes: seq<Change>, reserved: seq<Bytes>, rules: P.Rules)
    requires IsRun(states, changes, reserved, rules) && changes != []
    ensures IsRun(states[..|changes|], changes[..|changes| - 1], reserved, rules)
  {
  }

  /** From `i` on, while nothing writes the entry, only its trust can change. */
  lemma {:induction false} OnlyTrustChanges(
    states: seq<seq<InstalledApp>>, changes: seq<Change>, i: nat, id: Bytes, reserved: seq<Bytes>, rules: P.Rules)
    requires IsRun(states, changes, reserved, rules) && i <= |changes|
    requires forall j :: i <= j < |changes| ==> !Writes(changes[j], id)
    ensures Lookup(states[|changes|], id) == WithTrust(Lookup(states[i], id), changes, i, id)
    decreases |changes|
  {
    if i < |changes| {
      var n := |changes| - 1;
      RunShortens(states, changes, reserved, rules);
      OnlyTrustChanges(states[..|changes|], changes[..n], i, id, reserved, rules);
      assert Carried(states[n], changes[n], states[n + 1], reserved, rules) && !Writes(changes[n], id);
    }
  }

  /** The entry after a run: what the last change that wrote it recorded, with trust as it
      was set since; never trusted by the install or the update itself. */
  lemma EntryIsLastWritten(
    states: seq<seq<InstalledApp>>, changes: seq<Change>, i: nat, id: Bytes, reserved: seq<Bytes>, rules: P.Rules)
    requires IsRun(states, changes, reserved, rules) && i < |changes| && Writes(changes[i], id)
    requires forall j :: i < j < |changes| ==> !Writes(changes[j], id)
    ensures
      var now := Lookup(states[|changes|], id);
      match changes[i]
      case Installed(p, g, packageDigest) =>
        && now.Some? && Records(now.value.(wasmTrusted := false), p, g, packageDigest)
        && now.value.wasmTrusted == TrustSince(changes, i + 1, id, false)
      case Updated(p, g, packageDigest) =>
        && now.Some? && Records(now.value.(wasmTrusted := false), p, g, packageDigest)
        && now.value.wasmTrusted == TrustSince(changes, i + 1, id, false)
      case Removed(_) => now.None?
      case Trusted(_, _) => true
      case Restored(entries) => now == WithTrust(Lookup(entries, id), changes, i + 1, id)
  {
    OnlyTrustChanges(states, changes, i + 1, id, reserved, rules);
    assert Carried(states[i], changes[i], states[i + 1], reserved, rules);
  }

  /** Trusted since `i`, if not before: somebody trusted that id, and nobody took it back. */
  lemma {:induction false} TrustIsGiven(changes: seq<Change>, i: nat, id: Bytes) returns (j: nat)
    requires TrustSince(changes, i, id, false)
    ensures i <= j < |changes| && changes[j] == Trusted(id, true)
    ensures forall k :: j < k < |changes| ==> !(changes[k].Trusted? && changes[k].id == id)
    decreases |changes|
  {
    var n := |changes| - 1;
    if changes[n].Trusted? && changes[n].id == id { return n; }
    j := TrustIsGiven(changes[..n], i, id);
  }

  /** Whatever is installed or updated runs trusted only after it was trusted in its present
      form: after the last install, update or restore of that id. */
  lemma TrustedOnlyByConsent(
    states: seq<seq<InstalledApp>>, changes: seq<Change>, i: nat, id: Bytes, reserved: seq<Bytes>, rules: P.Rules)
    returns (j: nat)
    requires IsRun(states, changes, reserved, rules) && i < |changes| && Writes(changes[i], id)
    requires forall j :: i < j < |changes| ==> !Writes(changes[j], id)
    requires Lookup(states[|changes|], id).Some? && Lookup(states[|changes|], id).value.wasmTrusted
    requires changes[i].Restored? ==>
      Lookup(changes[i].entries, id).Some? && !Lookup(changes[i].entries, id).value.wasmTrusted
    ensures i < j < |changes| && changes[j] == Trusted(id, true)
    ensures forall k :: j < k < |changes| ==> !(changes[k].Trusted? && changes[k].id == id)
  {
    EntryIsLastWritten(states, changes, i, id, reserved, rules);
    j := TrustIsGiven(changes, i + 1, id);
  }

  /** Reserved ids, and ids the rules refuse, keep their entries until a snapshot is restored. */
  lemma {:induction false} ReservedStays(
    states: seq<seq<InstalledApp>>, changes: seq<Change>, id: Bytes, reserved: seq<Bytes>, rules: P.Rules)
    requires IsRun(states, changes, reserved, rules) && !MayChange(id, reserved, rules)
    requires forall j :: 0 <= j < |changes| ==> !changes[j].Restored?
    ensures Lookup(states[|changes|], id) == Lookup(states[0], id)
    decreases |changes|
  {
    if changes != [] {
      var n := |changes| - 1;
      RunShortens(states, changes, reserved, rules);
      ReservedStays(states[..|changes|], changes[..n], id, reserved, rules);
      assert Carried(states[n], changes[n], states[n + 1], reserved, rules) && !changes[n].Restored?;
    }
  }
}
