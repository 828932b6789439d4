/** The registry in memory: a sorted list that behaves as a map from id to entry. */
module RegistryStore {
  import opened Fields
  import opened Objects
  import opened Registry

  datatype Generation = Generation(filename: Bytes, format: P.ExecutableFormat, digest: Bytes, length: nat)

  datatype MutationError =
    | TargetIdInvalid | ReservedSystemId | AlreadyInstalled | NotInstalled | RegistryFull
    | ExecutableLengthMismatch | ExecutableFormatMismatch | ExecutableNotWasm
    | FilenameInvalid | GenerationFilenameCollision

  // ------------------------------------------------------------------ the map

  /** What a search from the front finds. */
  function Lookup(entries: seq<InstalledApp>, id: Bytes): Option<InstalledApp>
  {
    if entries == [] then None
    else if entries[0].appId == id then Some(entries[0])
    else Lookup(entries[1..], id)
  }

  lemma {:induction false} LookupFinds(entries: seq<InstalledApp>, i: nat)
    requires Ascending(entries) && i < |entries|
    ensures Lookup(entries, entries[i].appId) == Some(entries[i])
  {
    if i > 0 {
      LessIsStrict(entries[i].appId);
      LookupFinds(entries[1..], i - 1);
    }
  }

  lemma {:induction false} LookupWitness(entries: seq<InstalledApp>, id: Bytes) returns (i: nat)
    ensures Lookup(entries, id).Some? ==>
      i < |entries| && entries[i].appId == id && Lookup(entries, id) == Some(entries[i])
    ensures Lookup(entries, id).None? ==> forall k :: 0 <= k < |entries| ==> entries[k].appId != id
  {
    i := 0;
    if entries != [] && entries[0].appId != id {
      i := LookupWitness(entries[1..], id);
      i := i + 1;
    }
  }

  /** Where an absent id belongs. */
  predicate Between(entries: seq<InstalledApp>, at: nat, id: Bytes)
  {
    && at <= |entries|
    && (forall k :: 0 <= k < at ==> Less(entries[k].appId, id))
    && (forall k :: at <= k < |entries| ==> Less(id, entries[k].appId))
  }

  lemma InsertKeepsAscending(entries: seq<InstalledApp>, at: nat, e: InstalledApp)
    requires Ascending(entries) && Between(entries, at, e.appId)
    ensures Ascending(entries[..at] + [e] + entries[at..])
  {
    var all := entries[..at] + [e] + entries[at..];
    forall i, j | 0 <= i < j < |all| ensures Less(all[i].appId, all[j].appId) {
      if i < at < j { LessIsTransitive(all[i].appId, e.appId, all[j].appId); }
    }
  }

  lemma ReplaceKeepsAscending(entries: seq<InstalledApp>, at: nat, e: InstalledApp)
    requires Ascending(entries) && at < |entries| && entries[at].appId == e.appId
    ensures Ascending(entries[at := e])
  {
  }

  lemma RemoveKeepsAscending(entries: seq<InstalledApp>, at: nat)
    requires Ascending(entries) && at < |entries|
    ensures Ascending(entries[..at] + entries[at + 1..])
  {
  }

  /** Two ascending lists that differ only in what they hold for `id`. */
  lemma SameElsewhere(a: seq<InstalledApp>, b: seq<InstalledApp>, id: Bytes, k: Bytes)
    requires Ascending(a) && Ascending(b) && k != id
    requires forall e: InstalledApp :: e.appId != id ==> (e in a <==> e in b)
    ensures Lookup(a, k) == Lookup(b, k)
  {
    var i := LookupWitness(a, k);
    var j := LookupWitness(b, k);
    if Lookup(a, k).Some? {
      assert a[i] in b;
      var m :| 0 <= m < |b| && b[m] == a[i];
      LookupFinds(b, m);
    }
  }

  // ------------------------------------------------------------------- errors

  function TargetError(id: Bytes, reserved: seq<Bytes>, rules: P.Rules): Option<MutationError>
  {
    if !rules.appId(id) then Some(TargetIdInvalid) else if id in reserved then Some(ReservedSystemId) else None
  }

  function GenerationError(p: P.Package, g: Generation): Option<MutationError>
  {
    if g.length != |p.executable| then Some(ExecutableLengthMismatch)
    else if g.format != p.format then Some(ExecutableFormatMismatch)
    else if g.filename != Filename(p.appId, g.digest, p.format) then Some(FilenameInvalid)
    else None
  }

  function First(a: Option<MutationError>, b: Option<MutationError>): Option<MutationError> { if a.Some? then a else b }

  function OwnedEntry(p: P.Package, g: Generation, packageDigest: Bytes): InstalledApp
  {
    InstalledApp(
      p.appId, p.displayName, p.version, p.kind, g.filename, g.format, g.digest, g.length, false, packageDigest)
  }

  /** The entry holds what the package, the generation and the provenance say, untrusted. */
  predicate Records(e: InstalledApp, p: P.Package, g: Generation, packageDigest: Bytes)
  {
    && e.appId == p.appId && e.displayName == p.displayName && e.version == p.version && e.kind == p.kind
    && e.filename == g.filename && e.format == g.format && e.digest == g.digest && e.length == g.length
    && e.packageDigest == packageDigest && !e.wasmTrusted
  }

  /** An id that may be changed from outside. */
  predicate MayChange(id: Bytes, reserved: seq<Bytes>, rules: P.Rules)
  {
    rules.appId(id) && id !in reserved
  }

  /** The generation is the package's own executable under its own name. */
  predicate Matches(p: P.Package, g: Generation)
  {
    g.length == |p.executable| && g.format == p.format && g.filename == Filename(p.appId, g.digest, p.format)
  }

  /** Nothing but the entry of one id differs. */
  ghost predicate OnlyAt(id: Bytes, before: seq<InstalledApp>, after: seq<InstalledApp>)
  {
    forall k :: k != id ==> Lookup(after, k) == Lookup(before, k)
  }

  /** A change that was carried out; restoring puts a whole snapshot in place. */
  datatype Change =
    | Installed(p: P.Package, g: Generation, packageDigest: Bytes)
    | Updated(p: P.Package, g: Generation, packageDigest: Bytes)
    | Removed(id: Bytes)
    | Trusted(id: Bytes, trusted: bool)
    | Restored(entries: seq<InstalledApp>)

  /** What a change that is carried out does. */
  ghost predicate Carried(
    before: seq<InstalledApp>, c: Change, after: seq<InstalledApp>, reserved: seq<Bytes>, rules: P.Rules)
  {
    match c
    case Installed(p, g, packageDigest) =>
      && MayChange(p.appId, reserved, rules) && Lookup(before, p.appId).None? && OnlyAt(p.appId, before, after)
      && Lookup(after, p.appId).Some? && Records(Lookup(after, p.appId).value, p, g, packageDigest)
    case Updated(p, g, packageDigest) =>
      && MayChange(p.appId, reserved, rules) && Lookup(before, p.appId).Some? && OnlyAt(p.appId, before, after)
      && Lookup(after, p.appId).Some? && Records(Lookup(after, p.appId).value, p, g, packageDigest)
    case Removed(id) => MayChange(id, reserved, rules) && Lookup(after, id).None? && OnlyAt(id, before, after)
    case Trusted(id, trusted) =>
      && MayChange(id, reserved, rules) && Lookup(before, id).Some? && Lookup(before, id).value.format == P.Wasm
      && Lookup(after, id) == Some(Lookup(before, id).value.(wasmTrusted := trusted)) && OnlyAt(id, before, after)
    case Restored(entries) => after == entries
  }

  lemma OwnedIsValid(p: P.Package, g: Generation, packageDigest: Bytes, rules: P.Rules)
    requires P.ValidPackage(p, rules) && GenerationError(p, g).None?
    requires |g.digest| == DIGEST_LEN == |packageDigest|
    ensures ValidEntry(OwnedEntry(p, g, packageDigest), rules)
  {
  }

  // ---------------------------------------------------------------- snapshots

  method EncodeEntries(entries: seq<InstalledApp>) returns (bytes: Bytes)
    ensures bytes == Encode(entries)
  {
    bytes := AppendMany(Pack([MAGIC, VERSION, 0, |entries|], HEADER), EncodeEntry, entries);
  }

  /** The entry at a cursor and the cursor behind it. */
  method ParseEntryAt(bytes: Bytes, cursor: nat, rules: P.Rules) returns (r: Result<(InstalledApp, nat), RegistryError>)
    requires cursor <= |bytes|
    ensures r.Ok? ==>
      cursor <= r.value.1 <= |bytes| && ParseEntry(bytes[cursor..], rules) == Ok((r.value.0, bytes[r.value.1..]))
    ensures r.Err? ==> ParseEntry(bytes[cursor..], rules) == Err(r.error)
  {
    ghost var rest := bytes[cursor..];
    if cursor + ENTRY_HEADER_SIZE > |bytes| { return Err(TruncatedEntryHeader); }
    EntryWidth();
    var numbersEnd := cursor + ENTRY_NUMBERS;
    assert rest[..ENTRY_NUMBERS] == bytes[cursor..numbersEnd] && rest[ENTRY_NUMBERS..] == bytes[numbersEnd..];
    var v := Unpack(bytes[cursor..numbersEnd], ENTRY_HEADER);
    var error := NumbersError(v);
    if error.Some? { return Err(error.value); }
    EntrySplits(rest, v, bytes[numbersEnd..], rules);
    r := ParseTextsAt(v, bytes, numbersEnd, rules);
  }

  method ParseTextsAt(v: seq<nat>, bytes: Bytes, start: nat, rules: P.Rules)
    returns (r: Result<(InstalledApp, nat), RegistryError>)
    requires |v| == 9 && NumbersError(v).None? && start <= |bytes|
    ensures r.Ok? ==>
      start <= r.value.1 <= |bytes| && ParseTexts(v, bytes[start..], rules) == Ok((r.value.0, bytes[r.value.1..]))
    ensures r.Err? ==> ParseTexts(v, bytes[start..], rules) == Err(r.error)
  {
    var end := start + Width(TextLengths(v));
    if end > |bytes| { return Err(TruncatedEntry); }
    SliceRest(bytes[start..], TextLengths(v));
    assert bytes[start..][Width(TextLengths(v))..] == bytes[end..];
    var e := EntryOf(v, Slice(bytes[start..], TextLengths(v)).0);
    var error := TextsError(e, rules);
    return if error.Some? then Err(error.value) else Ok((e, end));
  }

  /** The next entry, if it may follow those read so far. */
  method NextEntryAt(bytes: Bytes, cursor: nat, sofar: seq<InstalledApp>, rules: P.Rules)
    returns (r: Result<(InstalledApp, nat), RegistryError>)
    requires cursor <= |bytes|
    ensures r.Ok? ==> cursor <= r.value.1 <= |bytes|
    ensures r.Ok? ==> NextEntry(rules)(sofar, bytes[cursor..]) == Ok((r.value.0, bytes[r.value.1..]))
    ensures r.Err? ==> NextEntry(rules)(sofar, bytes[cursor..]) == Err(r.error)
  {
    r := ParseEntryAt(bytes, cursor, rules);
    if r.Err? { return; }
    var error := CheckNext(sofar, r.value.0);
    if error.Some? { return Err(error.value); }
  }

  /** Why an entry may not follow the ones before it. */
  method CheckNext(sofar: seq<InstalledApp>, e: InstalledApp) returns (error: Option<RegistryError>)
    ensures forall rest: Bytes :: Admit(sofar, Ok((e, rest))) == if error.None? then Ok((e, rest)) else Err(error.value)
  {
    if !InOrder(sofar, e) { return Some(NonCanonicalOrder); }
    var isNew := IsNewFilename(sofar, e);
    if !isNew { return Some(DuplicateGenerationFilename); }
    return None;
  }

  method IsNewFilename(sofar: seq<InstalledApp>, e: InstalledApp) returns (ok: bool)
    ensures ok == NewFilename(sofar, e)
  {
    for i := 0 to |sofar|
      invariant forall k :: 0 <= k < i ==> sofar[k].filename != e.filename
    {
      if sofar[i].filename == e.filename { return false; }
    }
    return true;
  }

  method ParseEntriesAt(bytes: Bytes, n: nat, rules: P.Rules) returns (r: Result<seq<InstalledApp>, RegistryError>)
    requires HEADER_SIZE <= |bytes|
    ensures r == ParseEntries(bytes[HEADER_SIZE..], n, rules)
  {
    var entries: seq<InstalledApp> := [];
    var cursor: nat := HEADER_SIZE;
    for index := 0 to n
      invariant cursor <= |bytes|
      invariant ParseMany(NextEntry(rules), entries, bytes[cursor..], n - index)
             == ParseMany(NextEntry(rules), [], bytes[HEADER_SIZE..], n)
    {
      var next := NextEntryAt(bytes, cursor, entries, rules);
      if next.Err? { return Err(next.error); }
      entries := entries + [next.value.0];
      cursor := next.value.1;
    }
    if cursor != |bytes| { return Err(TrailingData); }
    return Ok(entries);
  }

  /** Reads a snapshot; the result is valid and its own snapshot again, and a duplicate
      filename is never the reason to refuse one. */
  method ParseSnapshot(bytes: Bytes, rules: P.Rules) returns (r: Result<seq<InstalledApp>, RegistryError>)
    ensures r == Parse(bytes, rules)
    ensures r.Ok? ==> ValidRegistry(r.value, rules) && Encode(r.value) == bytes
    ensures r != Err(DuplicateGenerationFilename)
  {
    SnapshotFacts(bytes, rules);
    if |bytes| > MAX_REGISTRY_LEN { return Err(SnapshotTooLarge); }
    if |bytes| < HEADER_SIZE { return Err(TruncatedHeader); }
    P.FourWide(4, 2, 2, 4);
    var v := Unpack(bytes[..HEADER_SIZE], HEADER);
    if v[0] != MAGIC { return Err(BadMagic); }
    if v[1] != VERSION { return Err(UnsupportedVersion); }
    if v[2] != 0 { return Err(UnknownHeaderFlags); }
    if v[3] > MAX_INSTALLED_APPS { return Err(TooManyEntries); }
    r := ParseEntriesAt(bytes, v[3], rules);
  }

  lemma SnapshotFacts(bytes: Bytes, rules: P.Rules)
    ensures Parse(bytes, rules) != Err(DuplicateGenerationFilename)
    ensures Parse(bytes, rules).Ok? ==>
      ValidRegistry(Parse(bytes, rules).value, rules) && Encode(Parse(bytes, rules).value) == bytes
  {
    DuplicateFilenameUnreachable(bytes, rules);
    if Parse(bytes, rules).Ok? { ParsedIsEncoded(bytes, rules); }
  }

  // -------------------------------------------------------------- the registry

  class InstalledRegistry {
    const rules: P.Rules
    var entries: seq<InstalledApp>

    ghost predicate Valid()
      reads this
    {
      ValidRegistry(entries, rules)
    }

    constructor (rules: P.Rules)
      ensures Valid() && entries == [] && this.rules == rules
    {
      this.rules := rules;
      entries := [];
    }

    constructor Holding(entries: seq<InstalledApp>, rules: P.Rules)
      requires ValidRegistry(entries, rules)
      ensures Valid() && this.entries == entries && this.rules == rules
    {
      this.rules := rules;
      this.entries := entries;
    }

    /** The registry a snapshot holds, or why it holds none. */
    static method FromSnapshot(bytes: Bytes, rules: P.Rules) returns (r: Result<InstalledRegistry, RegistryError>)
      ensures r.Err? ==> Parse(bytes, rules) == Err(r.error)
      ensures r.Ok? ==> fresh(r.value) && r.value.Valid() && r.value.rules == rules
      ensures r.Ok? ==> Parse(bytes, rules) == Ok(r.value.entries) && Encode(r.value.entries) == bytes
    {
      var parsed := ParseSnapshot(bytes, rules);
      if parsed.Err? { return Err(parsed.error); }
      var registry := new InstalledRegistry.Holding(parsed.value, rules);
      return Ok(registry);
    }

    /** Binary search by id. */
    method Find(id: Bytes) returns (r: Result<nat, nat>)
      requires Valid()
      ensures r.Ok? ==> r.value < |entries| && entries[r.value].appId == id
      ensures r.Err? ==> Between(entries, r.error, id)
    {
      var lo: nat, hi: nat := 0, |entries|;
      while lo < hi
        invariant lo <= hi <= |entries|
        invariant forall k :: 0 <= k < lo ==> Less(entries[k].appId, id)
        invariant forall k :: hi <= k < |entries| ==> Less(id, entries[k].appId)
      {
        var mid := (lo + hi) / 2;
        var at := entries[mid].appId;
        if Less(at, id) {
          Below(mid, id);
          lo := mid + 1;
        } else if Less(id, at) {
          Above(mid, id);
          hi := mid;
        } else {
          LessIsTotal(at, id);
          return Ok(mid);
        }
      }
      return Err(lo);
    }

    lemma Below(mid: nat, id: Bytes)
      requires Valid() && mid < |entries| && Less(entries[mid].appId, id)
      ensures forall k :: 0 <= k <= mid ==> Less(entries[k].appId, id)
    {
      forall k | 0 <= k < mid ensures Less(entries[k].appId, id) {
        LessIsTransitive(entries[k].appId, entries[mid].appId, id);
      }
    }

    lemma Above(mid: nat, id: Bytes)
      requires Valid() && mid < |entries| && Less(id, entries[mid].appId)
      ensures forall k :: mid <= k < |entries| ==> Less(id, entries[k].appId)
    {
      forall k | mid < k < |entries| ensures Less(id, entries[k].appId) {
        LessIsTransitive(id, entries[mid].appId, entries[k].appId);
      }
    }

    /** The binary search agrees with searching from the front. */
    method Get(id: Bytes) returns (r: Option<InstalledApp>)
      requires Valid()
      ensures r == Lookup(entries, id)
    {
      var found := Find(id);
      if found.Ok? {
        LookupFinds(entries, found.value);
        return Some(entries[found.value]);
      }
      AbsentIsNone(found.error, id);
      return None;
    }

    lemma AbsentIsNone(at: nat, id: Bytes)
      requires Valid() && Between(entries, at, id)
      ensures Lookup(entries, id).None?
    {
      LessIsStrict(id);
      var i := LookupWitness(entries, id);
    }

    /** Refuses what does not match the package. A filename held by another application
        is refused too, but that never happens. */
    method CheckMutation(p: P.Package, g: Generation, reserved: seq<Bytes>) returns (error: Option<MutationError>)
      requires Valid() && |g.digest| == DIGEST_LEN
      ensures error == First(TargetError(p.appId, reserved, rules), GenerationError(p, g))
    {
      error := First(TargetError(p.appId, reserved, rules), GenerationError(p, g));
      if error.Some? { return; }
      for i := 0 to |entries|
      {
        if entries[i].appId != p.appId && entries[i].filename == g.filename {
          FilenameIsInjective(entries[i].appId, entries[i].digest, entries[i].format, p.appId, g.digest, p.format);
          return Some(GenerationFilenameCollision);
        }
      }
    }

    method Install(p: P.Package, g: Generation, packageDigest: Bytes, reserved: seq<Bytes>)
      returns (error: Option<MutationError>)
      requires Valid() && P.ValidPackage(p, rules) && |g.digest| == DIGEST_LEN == |packageDigest|
      modifies this
      ensures Valid()
      ensures error ==
        First(First(TargetError(p.appId, reserved, rules), GenerationError(p, g)),
              if Lookup(old(entries), p.appId).Some? then Some(AlreadyInstalled)
              else if |old(entries)| >= MAX_INSTALLED_APPS then Some(RegistryFull) else None)
      ensures error.None? <==>
        && MayChange(p.appId, reserved, rules) && Matches(p, g)
        && Lookup(old(entries), p.appId).None? && |old(entries)| < MAX_INSTALLED_APPS
      ensures error.Some? ==> entries == old(entries)
      ensures error.None? ==>
        && Lookup(entries, p.appId).Some? && Records(Lookup(entries, p.appId).value, p, g, packageDigest)
        && OnlyAt(p.appId, old(entries), entries)
      ensures error.None? ==> Carried(old(entries), Installed(p, g, packageDigest), entries, reserved, rules)
    {
      error := CheckMutation(p, g, reserved);
      if error.Some? { return; }
      var found := Find(p.appId);
      if found.Ok? {
        LookupFinds(entries, found.value);
        return Some(AlreadyInstalled);
      }
      AbsentIsNone(found.error, p.appId);
      if |entries| >= MAX_INSTALLED_APPS { return Some(RegistryFull); }
      OwnedIsValid(p, g, packageDigest, rules);
      InsertAt(found.error, OwnedEntry(p, g, packageDigest));
    }

    method InsertAt(at: nat, e: InstalledApp)
      requires Valid() && ValidEntry(e, rules) && Between(entries, at, e.appId) && |entries| < MAX_INSTALLED_APPS
      modifies this
      ensures Valid() && Lookup(entries, e.appId) == Some(e)
      ensures OnlyAt(e.appId, old(entries), entries)
    {
      InsertKeepsAscending(entries, at, e);
      entries := entries[..at] + [e] + entries[at..];
      LookupFinds(entries, at);
      assert forall x: InstalledApp :: x.appId != e.appId ==> (x in entries <==> x in old(entries));
      forall k | k != e.appId ensures Lookup(entries, k) == Lookup(old(entries), k) {
        SameElsewhere(entries, old(entries), e.appId, k);
      }
    }

    method ReplaceAt(at: nat, e: InstalledApp)
      requires Valid() && ValidEntry(e, rules) && at < |entries| && entries[at].appId == e.appId
      modifies this
      ensures Valid() && Lookup(entries, e.appId) == Some(e)
      ensures OnlyAt(e.appId, old(entries), entries)
    {
      ReplaceKeepsAscending(entries, at, e);
      entries := entries[at := e];
      LookupFinds(entries, at);
      forall x: InstalledApp | x.appId != e.appId ensures x in entries <==> x in old(entries) {
        if x in old(entries) {
          var i :| 0 <= i < |old(entries)| && old(entries)[i] == x;
          assert entries[i] == x;
        }
      }
      forall k | k != e.appId ensures Lookup(entries, k) == Lookup(old(entries), k) {
        SameElsewhere(entries, old(entries), e.appId, k);
      }
    }

    method Update(p: P.Package, g: Generation, packageDigest: Bytes, reserved: seq<Bytes>)
      returns (error: Option<MutationError>)
      requires Valid() && P.ValidPackage(p, rules) && |g.digest| == DIGEST_LEN == |packageDigest|
      modifies this
      ensures Valid()
      ensures error ==
        First(First(TargetError(p.appId, reserved, rules), GenerationError(p, g)),
              if Lookup(old(entries), p.appId).None? then Some(NotInstalled) else None)
      ensures error.None? <==>
        MayChange(p.appId, reserved, rules) && Matches(p, g) && Lookup(old(entries), p.appId).Some?
      ensures error.Some? ==> entries == old(entries)
      ensures error.None? ==>
        && Lookup(entries, p.appId).Some? && Records(Lookup(entries, p.appId).value, p, g, packageDigest)
        && OnlyAt(p.appId, old(entries), entries)
      ensures error.None? ==> Carried(old(entries), Updated(p, g, packageDigest), entries, reserved, rules)
    {
      error := CheckMutation(p, g, reserved);
      if error.Some? { return; }
      var found := Find(p.appId);
      if found.Err? {
        AbsentIsNone(found.error, p.appId);
        return Some(NotInstalled);
      }
      LookupFinds(entries, found.value);
      OwnedIsValid(p, g, packageDigest, rules);
      ReplaceAt(found.value, OwnedEntry(p, g, packageDigest));
    }

    method Remove(id: Bytes, reserved: seq<Bytes>) returns (r: Result<InstalledApp, MutationError>)
      requires Valid()
      modifies this
      ensures Valid()
      ensures r ==
        if TargetError(id, reserved, rules).Some? then Err(TargetError(id, reserved, rules).value)
        else if Lookup(old(entries), id).None? then Err(NotInstalled)
        else Ok(Lookup(old(entries), id).value)
      ensures r.Ok? <==> MayChange(id, reserved, rules) && Lookup(old(entries), id).Some?
      ensures r.Err? ==> entries == old(entries)
      ensures r.Ok? ==> Lookup(entries, id).None? && OnlyAt(id, old(entries), entries)
      ensures r.Ok? ==> Carried(old(entries), Removed(id), entries, reserved, rules)
    {
      var bad := TargetError(id, reserved, rules);
      if bad.Some? { return Err(bad.value); }
      var found := Find(id);
      if found.Err? {
        AbsentIsNone(found.error, id);
        return Err(NotInstalled);
      }
      LookupFinds(entries, found.value);
      r := Ok(entries[found.value]);
      RemoveAt(found.value);
    }

    method RemoveAt(at: nat)
      requires Valid() && at < |entries|
      modifies this
      ensures Valid() && Lookup(entries, old(entries)[at].appId).None?
      ensures OnlyAt(old(entries)[at].appId, old(entries), entries)
    {
      var id := entries[at].appId;
      LessIsStrict(id);
      RemoveKeepsAscending(entries, at);
      entries := entries[..at] + entries[at + 1..];
      var i := LookupWitness(entries, id);
      assert forall x: InstalledApp :: x.appId != id ==> (x in entries <==> x in old(entries));
      forall k | k != id ensures Lookup(entries, k) == Lookup(old(entries), k) {
        SameElsewhere(entries, old(entries), id, k);
      }
    }

    method SetWasmTrusted(id: Bytes, trusted: bool, reserved: seq<Bytes>) returns (error: Option<MutationError>)
      requires Valid()
      modifies this
      ensures Valid()
      ensures error == First(TargetError(id, reserved, rules),
        if Lookup(old(entries), id).None? then Some(NotInstalled)
        else if Lookup(old(entries), id).value.format != P.Wasm then Some(ExecutableNotWasm)
        else None)
      ensures error.None? <==>
        && MayChange(id, reserved, rules) && Lookup(old(entries), id).Some?
        && Lookup(old(entries), id).value.format == P.Wasm
      ensures error.Some? ==> entries == old(entries)
      ensures error.None? ==> Lookup(entries, id) == Some(Lookup(old(entries), id).value.(wasmTrusted := trusted))
      ensures error.None? ==> OnlyAt(id, old(entries), entries)
      ensures error.None? ==> Carried(old(entries), Trusted(id, trusted), entries, reserved, rules)
    {
      error := TargetError(id, reserved, rules);
      if error.Some? { return; }
      var found := Find(id);
      if found.Err? {
        AbsentIsNone(found.error, id);
        return Some(NotInstalled);
      }
      LookupFinds(entries, found.value);
      if entries[found.value].format != P.Wasm { return Some(ExecutableNotWasm); }
      ReplaceAt(found.value, entries[found.value].(wasmTrusted := trusted));
    }

    /** The snapshot of any registry state parses back to that state. */
    method Snapshot() returns (bytes: Bytes)
      requires Valid()
      ensures bytes == Encode(entries) && |bytes| <= MAX_REGISTRY_LEN && Parse(bytes, rules) == Ok(entries)
    {
      bytes := EncodeEntries(entries);
      EncodedFits(entries, rules);
      ParseEncoded(entries, rules);
    }
  }
}
