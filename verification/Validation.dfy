/** The rules for names, versions and paths as they are checked, and what they are for. */
module Validation {
  import opened Fields
  import opened Objects
  import opened Package
  import opened PackageCodec
  import R = Registry
  import S = RegistryStore

  // ---------------------------------------------------------- splitting names

  function Rejoin(parts: seq<Bytes>, separator: u8): Bytes
  {
    if parts == [] then [] else if |parts| == 1 then parts[0]
    else parts[0] + [separator] + Rejoin(parts[1..], separator)
  }

  predicate Separated(parts: seq<Bytes>, separator: u8)
  {
    parts != [] && forall i :: 0 <= i < |parts| ==> separator !in parts[i]
  }

  /** Splitting cuts at every separator and loses nothing. */
  lemma {:induction false} SplitRejoins(value: Bytes, separator: u8)
    ensures Separated(Split(value, separator), separator) && Rejoin(Split(value, separator), separator) == value
  {
    if value != [] {
      var rest := Split(value[1..], separator);
      SplitRejoins(value[1..], separator);
      var parts := Split(value, separator);
      if value[0] == separator {
        assert parts[1..] == rest;
        assert Rejoin(parts, separator) == [] + [separator] + value[1..];
      } else {
        assert parts[1..] == rest[1..];
        assert Rejoin(parts, separator) == [value[0]] + Rejoin(rest, separator);
      }
    }
  }

  lemma {:induction false} SplitHead(head: Bytes, tail: Bytes, separator: u8)
    requires separator !in head
    ensures Split(head + [separator] + tail, separator) == [head] + Split(tail, separator)
    ensures Split(head, separator) == [head]
  {
    if head == [] {
      assert head + [separator] + tail == [separator] + tail && ([separator] + tail)[1..] == tail;
    } else {
      SplitHead(head[1..], tail, separator);
      assert (head + [separator] + tail)[1..] == head[1..] + [separator] + tail;
      assert head == [head[0]] + head[1..];
    }
  }

  /** And it is the only way to cut: names with the same text have the same parts. */
  lemma {:induction false} SplitIsUnique(parts: seq<Bytes>, separator: u8)
    requires Separated(parts, separator)
    ensures Split(Rejoin(parts, separator), separator) == parts
  {
    if |parts| == 1 {
      SplitHead(parts[0], [], separator);
      assert parts == [parts[0]];
    } else {
      SplitIsUnique(parts[1..], separator);
      SplitHead(parts[0], Rejoin(parts[1..], separator), separator);
      assert parts == [parts[0]] + parts[1..];
    }
  }

  predicate AllPass(parts: seq<Bytes>, valid: Bytes -> bool)
  {
    forall i :: 0 <= i < |parts| ==> valid(parts[i])
  }

  predicate NoneBetween(value: Bytes, separator: u8, start: nat, end: nat)
    requires end <= |value|
  {
    forall k :: start <= k < end ==> value[k] != separator
  }

  lemma FirstPart(part: Bytes, rest: seq<Bytes>, valid: Bytes -> bool)
    ensures AllPass([part] + rest, valid) <==> valid(part) && AllPass(rest, valid)
  {
    var parts := [part] + rest;
    if AllPass(parts, valid) {
      assert valid(parts[0]);
      forall i | 0 <= i < |rest| ensures valid(rest[i]) { assert valid(parts[i + 1]); }
    }
  }

  lemma PartEnds(value: Bytes, start: nat, i: nat, separator: u8, valid: Bytes -> bool)
    requires start <= i < |value| && value[i] == separator && NoneBetween(value, separator, start, i)
    ensures AllPass(Split(value[start..], separator), valid) <==>
            valid(value[start..i]) && AllPass(Split(value[i + 1..], separator), valid)
  {
    assert value[start..] == value[start..i] + [separator] + value[i + 1..];
    SplitHead(value[start..i], value[i + 1..], separator);
    FirstPart(value[start..i], Split(value[i + 1..], separator), valid);
  }

  lemma LastPart(value: Bytes, start: nat, separator: u8, valid: Bytes -> bool)
    requires start <= |value| && NoneBetween(value, separator, start, |value|)
    ensures AllPass(Split(value[start..], separator), valid) <==> valid(value[start..])
  {
    SplitHead(value[start..], [], separator);
    FirstPart(value[start..], [], valid);
    assert [value[start..]] + [] == [value[start..]];
  }

  /** Every part passes, cutting as we go. */
  method AllParts(value: Bytes, separator: u8, valid: Bytes -> bool) returns (ok: bool)
    ensures ok == AllPass(Split(value, separator), valid)
  {
    var start: nat := 0;
    assert value[0..] == value;
    for i := 0 to |value|
      invariant start <= i && NoneBetween(value, separator, start, i)
      invariant AllPass(Split(value, separator), valid) <==> AllPass(Split(value[start..], separator), valid)
    {
      if value[i] == separator {
        PartEnds(value, start, i, separator, valid);
        if !valid(value[start..i]) { return false; }
        start := i + 1;
      }
    }
    LastPart(value, start, separator, valid);
    ok := valid(value[start..]);
  }

  // ------------------------------------------------------------ rules in force

  /** One pass with a flag for the previous byte. */
  method CheckVersion(value: Bytes, ghost text: Bytes -> bool) returns (ok: bool)
    ensures ok == StandardRules(text).version(value)
  {
    if value == [] || |value| > MAX_VERSION_LEN { return false; }
    var previousSeparator := true;
    for i := 0 to |value|
      invariant previousSeparator == (i == 0 || IsSeparator(value[i - 1]))
      invariant i > 0 ==> !IsSeparator(value[0])
      invariant forall k :: 0 <= k < i ==> IsAlphanumeric(value[k]) || IsSeparator(value[k])
      invariant forall k :: 0 <= k < i - 1 ==> !(IsSeparator(value[k]) && IsSeparator(value[k + 1]))
    {
      var separator := IsSeparator(value[i]);
      if !(IsAlphanumeric(value[i]) || separator) || (separator && previousSeparator) { return false; }
      previousSeparator := separator;
    }
    return !previousSeparator;
  }

  method CheckAppId(value: Bytes, ghost text: Bytes -> bool) returns (ok: bool)
    ensures ok == StandardRules(text).appId(value)
  {
    if value == [] || |value| > MAX_APP_ID_LEN { return false; }
    ok := AllParts(value, 0x2E, ValidIdPart);
    assert ok <==> forall i :: 0 <= i < |Split(value, 0x2E)| ==> ValidIdPart(Split(value, 0x2E)[i]);
  }

  method CheckAssetPath(value: Bytes, ghost text: Bytes -> bool) returns (ok: bool)
    ensures ok == StandardRules(text).assetPath(value)
  {
    if value == [] || |value| > MAX_ASSET_PATH_LEN { return false; }
    if value[0] == 0x2F || value[|value| - 1] == 0x2F { return false; }
    if 0x5C in value || 0x3A in value { return false; }
    ok := AllParts(value, 0x2F, ValidPathComponent);
    assert ok <==> forall i :: 0 <= i < |Split(value, 0x2F)| ==> ValidPathComponent(Split(value, 0x2F)[i]);
  }

  // --------------------------------------------------------- what they achieve

  predicate NameByte(b: u8) { IsLower(b) || IsDigit(b) || b == 0x2D || b == 0x2E }

  lemma {:induction false} RejoinedBytes(parts: seq<Bytes>, separator: u8, ok: u8 -> bool)
    requires ok(separator) && forall i, k :: 0 <= i < |parts| && 0 <= k < |parts[i]| ==> ok(parts[i][k])
    ensures forall k :: 0 <= k < |Rejoin(parts, separator)| ==> ok(Rejoin(parts, separator)[k])
  {
    if |parts| > 1 {
      forall i, k | 0 <= i < |parts[1..]| && 0 <= k < |parts[1..][i]| ensures ok(parts[1..][i][k]) {
        assert parts[1..][i] == parts[i + 1];
      }
      RejoinedBytes(parts[1..], separator, ok);
    }
  }

  lemma AppIdBytes(id: Bytes)
    requires ValidAppId(id)
    ensures forall k :: 0 <= k < |id| ==> NameByte(id[k])
  {
    var parts := Split(id, 0x2E);
    SplitRejoins(id, 0x2E);
    forall i, k | 0 <= i < |parts| && 0 <= k < |parts[i]| ensures NameByte(parts[i][k]) {
      assert ValidIdPart(parts[i]);
    }
    RejoinedBytes(parts, 0x2E, NameByte);
  }

  lemma {:induction false} HexBytes(bytes: Bytes)
    ensures forall k :: 0 <= k < |R.Hex(bytes)| ==> NameByte(R.Hex(bytes)[k])
  {
    if bytes != [] { HexBytes(bytes[1..]); }
  }

  /** The file an application is stored in is always a single path component, so that it
      lies in the directory it is meant for. */
  lemma GenerationFilesAreComponents(id: Bytes, digest: Bytes, format: ExecutableFormat)
    requires ValidAppId(id)
    ensures ValidPathComponent(R.Filename(id, digest, format)) && 0x2F !in R.Filename(id, digest, format)
  {
    var name := R.Filename(id, digest, format);
    AppIdBytes(id);
    HexBytes(digest);
    forall k | 0 <= k < |name| ensures NameByte(name[k]) { NameByteAt(id, digest, format, k); }
    assert |name| > 2;
  }

  lemma NameByteAt(id: Bytes, digest: Bytes, format: ExecutableFormat, k: nat)
    requires (forall i :: 0 <= i < |id| ==> NameByte(id[i])) && k < |R.Filename(id, digest, format)|
    requires forall i :: 0 <= i < |R.Hex(digest)| ==> NameByte(R.Hex(digest)[i])
    ensures NameByte(R.Filename(id, digest, format)[k])
  {
    var tail := [0x2D] + (R.Hex(digest) + ([0x2E] + R.Extension(format)));
    if k >= |id| { assert R.Filename(id, digest, format)[k] == tail[k - |id|]; }
  }

  // ------------------------------------------------- the formats, rules applied

  predicate NamesAreValid(p: Package)
  {
    && ValidAppId(p.appId) && ValidVersion(p.version)
    && forall i :: 0 <= i < |p.assets| ==> ValidAssetPath(p.assets[i].path)
  }

  /** Whatever parses has valid names, and only what has valid names is encoded. */
  method ParseStandard(bytes: Bytes, text: Bytes -> bool) returns (r: Result<Package, PackageError>)
    ensures r == Parse(bytes, StandardRules(text))
    ensures r.Ok? ==> NamesAreValid(r.value) && text(r.value.displayName) && Encode(r.value) == bytes
  {
    r := ParsePackage(bytes, StandardRules(text));
    if r.Ok? { assert forall i :: 0 <= i < |r.value.assets| ==> ValidAsset(r.value.assets[i], StandardRules(text)); }
  }

  method EncodeStandard(p: Package, text: Bytes -> bool) returns (r: Result<Bytes, PackageError>)
    ensures r.Ok? ==> NamesAreValid(p) && Parse(r.value, StandardRules(text)) == Ok(p)
    ensures r.Ok? <==> ValidPackage(p, StandardRules(text))
  {
    r := EncodePackage(p, StandardRules(text));
    if r.Ok? { assert forall i :: 0 <= i < |p.assets| ==> ValidAsset(p.assets[i], StandardRules(text)); }
  }

  /** Under the rules in force every installed application is stored in one file of its own
      inside the store's directory. */
  lemma InstalledFilesAreDistinctComponents(entries: seq<R.InstalledApp>, text: Bytes -> bool, i: nat, j: nat)
    requires R.ValidRegistry(entries, StandardRules(text)) && i < |entries| && j < |entries|
    ensures ValidPathComponent(entries[i].filename) && 0x2F !in entries[i].filename
    ensures entries[i].filename == entries[j].filename <==> i == j
  {
    assert R.ValidEntry(entries[i], StandardRules(text)) && R.ValidEntry(entries[j], StandardRules(text));
    GenerationFilesAreComponents(entries[i].appId, entries[i].digest, entries[i].format);
    if entries[i].filename == entries[j].filename {
      R.SameFilenameSameApp(entries[i], entries[j], StandardRules(text));
      S.LookupFinds(entries, i);
      S.LookupFinds(entries, j);
      R.LessIsStrict(entries[i].appId);
    }
  }
}
