/** Reading and writing packages with a cursor over one buffer. */
module PackageCodec {
  import opened Fields
  import opened Objects
  import opened Package

  /** The asset at a cursor and the cursor behind it. */
  method ParseAssetAt(bytes: Bytes, cursor: nat, rules: Rules) returns (r: Result<(Asset, nat), PackageError>)
    requires cursor <= |bytes|
    ensures r.Ok? ==>
      cursor <= r.value.1 <= |bytes| && ParseAsset(bytes[cursor..], rules) == Ok((r.value.0, bytes[r.value.1..]))
    ensures r.Err? ==> ParseAsset(bytes[cursor..], rules) == Err(r.error)
  {
    ghost var rest := bytes[cursor..];
    var headerEnd := cursor + ASSET_HEADER_SIZE;
    if headerEnd > |bytes| { return Err(TruncatedAssetHeader); }
    assert Width(ASSET_HEADER) == ASSET_HEADER_SIZE;
    assert rest[..ASSET_HEADER_SIZE] == bytes[cursor..headerEnd] && rest[ASSET_HEADER_SIZE..] == bytes[headerEnd..];
    var v := Unpack(bytes[cursor..headerEnd], ASSET_HEADER);
    if v[1] != 0 { return Err(UnknownAssetFlags); }
    if v[0] > MAX_ASSET_PATH_LEN { return Err(FieldTooLong); }
    if v[2] > MAX_ASSET_DATA_LEN { return Err(AssetTooLarge); }
    var pathEnd := headerEnd + v[0];
    var dataEnd := pathEnd + v[2];
    if dataEnd > |bytes| { return Err(TruncatedAsset); }
    ghost var body := bytes[headerEnd..];
    assert body[..v[0]] == bytes[headerEnd..pathEnd] && body[v[0]..v[0] + v[2]] == bytes[pathEnd..dataEnd];
    assert body[v[0] + v[2]..] == bytes[dataEnd..];
    if !rules.assetPath(bytes[headerEnd..pathEnd]) { return Err(InvalidAssetPath); }
    return Ok((Asset(bytes[headerEnd..pathEnd], bytes[pathEnd..dataEnd]), dataEnd));
  }

  /** The next asset, if the data so far plus its own stays within the limit. */
  method NextAssetAt(bytes: Bytes, cursor: nat, total: nat, rules: Rules, ghost sofar: seq<Asset>)
    returns (r: Result<(Asset, nat), PackageError>)
    requires cursor <= |bytes| && total == DataLen(sofar)
    ensures r.Ok? ==> cursor <= r.value.1 <= |bytes|
    ensures r.Ok? ==> NextAsset(rules)(sofar, bytes[cursor..]) == Ok((r.value.0, bytes[r.value.1..]))
    ensures r.Ok? ==> DataLen(sofar + [r.value.0]) == total + |r.value.0.data|
    ensures r.Err? ==> NextAsset(rules)(sofar, bytes[cursor..]) == Err(r.error)
  {
    r := ParseAssetAt(bytes, cursor, rules);
    if r.Ok? {
      DataLenAppend(sofar, r.value.0);
      if total + |r.value.0.data| > MAX_TOTAL_ASSET_DATA_LEN { return Err(TotalAssetsTooLarge); }
    }
  }

  /** Reads all assets in order, keeping count of their data. */
  method ParseAssetsAt(bytes: Bytes, start: nat, n: nat, rules: Rules)
    returns (r: Result<(seq<Asset>, nat), PackageError>)
    requires start <= |bytes|
    ensures r.Ok? ==> r.value.1 <= |bytes|
    ensures r.Ok? ==> ParseMany(NextAsset(rules), [], bytes[start..], n) == Ok((r.value.0, bytes[r.value.1..]))
    ensures r.Err? ==> ParseMany(NextAsset(rules), [], bytes[start..], n) == Err(r.error)
  {
    var assets: seq<Asset> := [];
    var cursor: nat, total: nat := start, 0;
    for index := 0 to n
      invariant cursor <= |bytes| && total == DataLen(assets)
      invariant ParseMany(NextAsset(rules), assets, bytes[cursor..], n - index)
             == ParseMany(NextAsset(rules), [], bytes[start..], n)
    {
      var next := NextAssetAt(bytes, cursor, total, rules, assets);
      ParseManyNext(NextAsset(rules), assets, bytes[cursor..], n - index,
                    if next.Err? then Err(next.error) else Ok((next.value.0, bytes[next.value.1..])));
      if next.Err? { return Err(next.error); }
      total := total + |next.value.0.data|;
      assets := assets + [next.value.0];
      cursor := next.value.1;
    }
    return Ok((assets, cursor));
  }

  method UniqueAssets(assets: seq<Asset>) returns (ok: bool)
    ensures ok == DistinctPaths(assets)
  {
    for i := 0 to |assets|
      invariant forall a, b :: 0 <= a < b < i ==> assets[a].path != assets[b].path
    {
      for k := 0 to i
        invariant forall a :: 0 <= a < k ==> assets[a].path != assets[i].path
      {
        if assets[k].path == assets[i].path { return false; }
      }
    }
    return true;
  }

  method ParsePackage(bytes: Bytes, rules: Rules) returns (r: Result<Package, PackageError>)
    ensures r == Parse(bytes, rules)
    ensures r.Ok? ==> ValidPackage(r.value, rules) && Encode(r.value) == bytes
  {
    if Parse(bytes, rules).Ok? { ParsedIsEncoded(bytes, rules); }
    if |bytes| > MAX_PACKAGE_LEN { return Err(PackageTooLarge); }
    if |bytes| < HEADER_SIZE { return Err(TruncatedHeader); }
    HeaderWidth();
    var v := Unpack(bytes[..HEADER_SIZE], HEADER);
    var error := HeaderError(v);
    if error.Some? { return Err(error.value); }
    ParseSplits(bytes, v, bytes[HEADER_SIZE..], rules);
    r := ParseBodyAt(v, bytes, rules);
  }

  method ParseBodyAt(v: seq<nat>, bytes: Bytes, rules: Rules) returns (r: Result<Package, PackageError>)
    requires |v| == 10 && HeaderError(v).None? && HEADER_SIZE <= |bytes|
    ensures r == ParseBody(v, bytes[HEADER_SIZE..], rules)
  {
    var metadataEnd := HEADER_SIZE + v[5] + v[6] + v[7];
    if metadataEnd > |bytes| { return Err(TruncatedMetadata); }
    var executableEnd := metadataEnd + v[9];
    if executableEnd > |bytes| { return Err(TruncatedExecutable); }
    FourWide(v[5], v[6], v[7], v[9]);
    SliceRest(bytes[HEADER_SIZE..], [v[5], v[6], v[7], v[9]]);
    var t := Slice(bytes[HEADER_SIZE..], [v[5], v[6], v[7], v[9]]).0;
    if !rules.appId(t[0]) { return Err(InvalidAppId); }
    if !rules.displayName(t[1]) { return Err(InvalidDisplayName); }
    if !rules.version(t[2]) { return Err(InvalidVersion); }
    r := ParseTailAt(t, KindFromWire(v[3]).value, FormatFromWire(v[8]).value, bytes, executableEnd, v[4], rules);
  }

  method ParseTailAt(
    t: seq<Bytes>, kind: AppKind, format: ExecutableFormat, bytes: Bytes, start: nat, n: nat, rules: Rules)
    returns (r: Result<Package, PackageError>)
    requires |t| == 4 && start <= |bytes|
    ensures r == ParseTail(t, kind, format, bytes[start..], n, rules)
  {
    var assets := ParseAssetsAt(bytes, start, n, rules);
    if assets.Err? { return Err(assets.error); }
    if assets.value.1 != |bytes| { return Err(TrailingData); }
    var unique := UniqueAssets(assets.value.0);
    if !unique { return Err(DuplicateAsset); }
    return Ok(Package(t[0], t[1], t[2], kind, format, t[3], assets.value.0));
  }

  // ----------------------------------------------------------------- iterator

  /** Where the assets of an encoded package start. */
  lemma AssetsOffset(p: Package)
    ensures var at := HEADER_SIZE + |p.appId| + |p.displayName| + |p.version| + |p.executable|;
            at <= |Encode(p)| && Encode(p)[at..] == EncodeMany(EncodeAsset, p.assets)
  {
    HeaderWidth();
    FourWide(|p.appId|, |p.displayName|, |p.version|, |p.executable|);
    assert |Join(Texts(p))| == Width(Lengths(Texts(p)));
    assert Lengths(Texts(p)) == [|p.appId|, |p.displayName|, |p.version|, |p.executable|];
  }

  /** Walks the assets of an accepted package by parsing them again. */
  class Assets {
    const bytes: Bytes
    const rules: Rules
    var cursor: nat
    var remaining: nat
    ghost var left: seq<Asset>

    ghost predicate Valid()
      reads this
    {
      && cursor <= |bytes| && remaining == |left|
      && bytes[cursor..] == EncodeMany(EncodeAsset, left)
      && forall i :: 0 <= i < |left| ==> ValidAsset(left[i], rules)
    }

    constructor (bytes: Bytes, p: Package, rules: Rules)
      requires ValidPackage(p, rules) && bytes == Encode(p)
      ensures Valid() && left == p.assets
    {
      this.bytes := bytes;
      this.rules := rules;
      cursor := HEADER_SIZE + |p.appId| + |p.displayName| + |p.version| + |p.executable|;
      remaining := |p.assets|;
      left := p.assets;
      AssetsOffset(p);
    }

    /** Stops only when nothing is left. */
    method Next() returns (a: Option<Asset>)
      requires Valid()
      modifies this
      ensures Valid() && (a.None? <==> old(left) == [])
      ensures a.None? ==> left == []
      ensures a.Some? ==> old(left) == [a.value] + left
    {
      if remaining == 0 { return None; }
      AssetRoundTrip(left[0], EncodeMany(EncodeAsset, left[1..]), rules);
      var next := ParseAssetAt(bytes, cursor, rules);
      if next.Err? { return None; }
      cursor := next.value.1;
      remaining := remaining - 1;
      left := left[1..];
      return Some(next.value.0);
    }

    method Drain() returns (assets: seq<Asset>)
      requires Valid()
      modifies this
      ensures assets == old(left)
    {
      assets := [];
      while true
        invariant Valid() && assets + left == old(left)
        decreases |left|
      {
        var a := Next();
        if a.None? { break; }
        assets := assets + [a.value];
      }
    }
  }

  /** The iterator yields exactly the package's assets. */
  method AllAssets(bytes: Bytes, p: Package, rules: Rules) returns (assets: seq<Asset>)
    requires ValidPackage(p, rules) && bytes == Encode(p)
    ensures assets == p.assets
  {
    var walk := new Assets(bytes, p, rules);
    assets := walk.Drain();
  }

  // ------------------------------------------------------------------ encoder

  /** Why asset `i` is refused, given those before it. */
  function AssetError(assets: seq<Asset>, rules: Rules, i: nat): Option<PackageError>
    requires i < |assets|
  {
    if |assets[i].path| > MAX_ASSET_PATH_LEN || !rules.assetPath(assets[i].path) then Some(InvalidAssetPath)
    else if |assets[i].data| > MAX_ASSET_DATA_LEN then Some(AssetTooLarge)
    else if DataLen(assets[..i]) + |assets[i].data| > MAX_TOTAL_ASSET_DATA_LEN then Some(TotalAssetsTooLarge)
    else if exists k :: 0 <= k < i && assets[k].path == assets[i].path then Some(DuplicateAsset)
    else None
  }

  /** Asset `i` is the first one refused, for this reason. */
  predicate FirstBadAsset(assets: seq<Asset>, rules: Rules, i: nat, error: PackageError)
  {
    && i < |assets| && AssetError(assets, rules, i) == Some(error)
    && forall k :: 0 <= k < i ==> AssetError(assets, rules, k).None?
  }

  method CheckAsset(assets: seq<Asset>, rules: Rules, i: nat, total: nat) returns (error: Option<PackageError>)
    requires i < |assets| && total == DataLen(assets[..i]) + |assets[i].data|
    ensures error == AssetError(assets, rules, i)
  {
    if |assets[i].path| > MAX_ASSET_PATH_LEN || !rules.assetPath(assets[i].path) { return Some(InvalidAssetPath); }
    if |assets[i].data| > MAX_ASSET_DATA_LEN { return Some(AssetTooLarge); }
    if total > MAX_TOTAL_ASSET_DATA_LEN { return Some(TotalAssetsTooLarge); }
    for k := 0 to i
      invariant forall j :: 0 <= j < k ==> assets[j].path != assets[i].path
    {
      if assets[k].path == assets[i].path { return Some(DuplicateAsset); }
    }
    return None;
  }

  /** Accepts exactly the valid lists, and reports the first refused asset's reason. */
  method CheckAssets(assets: seq<Asset>, rules: Rules) returns (error: Option<PackageError>)
    requires |assets| <= MAX_ASSET_COUNT
    ensures error.None? <==> ValidAssets(assets, rules)
    ensures error.Some? ==> exists i :: FirstBadAsset(assets, rules, i, error.value)
  {
    var total: nat := 0;
    for i := 0 to |assets|
      invariant total == DataLen(assets[..i]) <= MAX_TOTAL_ASSET_DATA_LEN && DistinctPaths(assets[..i])
      invariant forall k :: 0 <= k < i ==> ValidAsset(assets[k], rules) && AssetError(assets, rules, k).None?
    {
      DataLenStep(assets, i);
      total := total + |assets[i].data|;
      error := CheckAsset(assets, rules, i, total);
      if error.Some? {
        assert FirstBadAsset(assets, rules, i, error.value);
        return;
      }
    }
    assert assets[..|assets|] == assets;
    error := None;
  }

  lemma {:induction false} DataLenStep(assets: seq<Asset>, i: nat)
    requires i < |assets|
    ensures DataLen(assets[..i + 1]) == DataLen(assets[..i]) + |assets[i].data|
    ensures DataLen(assets[..i + 1]) <= DataLen(assets)
    decreases |assets| - i
  {
    DataLenAppend(assets[..i], assets[i]);
    assert assets[..i + 1] == assets[..i] + [assets[i]];
    if i + 1 == |assets| {
      assert assets[..i + 1] == assets;
    } else {
      DataLenStep(assets, i + 1);
    }
  }

  /** Why the metadata or the executable is refused, in the encoder's order. */
  function MetadataError(p: Package, rules: Rules): Option<PackageError>
  {
    if !Compatible(p.kind, p.format) then Some(IncompatibleExecutableFormat)
    else if |p.assets| > MAX_ASSET_COUNT then Some(TooManyAssets)
    else if |p.appId| > MAX_APP_ID_LEN || |p.displayName| > MAX_DISPLAY_NAME_LEN || |p.version| > MAX_VERSION_LEN
    then Some(FieldTooLong)
    else if !rules.appId(p.appId) then Some(InvalidAppId)
    else if !rules.displayName(p.displayName) then Some(InvalidDisplayName)
    else if !rules.version(p.version) then Some(InvalidVersion)
    else if p.executable == [] then Some(EmptyExecutable)
    else if |p.executable| > MAX_EXECUTABLE_LEN then Some(ExecutableTooLarge)
    else None
  }

  /** The reason a package is refused: its metadata's, or else its first bad asset's. */
  ghost predicate RefusedFor(p: Package, rules: Rules, error: PackageError)
  {
    if MetadataError(p, rules).Some? then MetadataError(p, rules) == Some(error)
    else exists i :: FirstBadAsset(p.assets, rules, i, error)
  }

  method CheckPackage(p: Package, rules: Rules) returns (error: Option<PackageError>)
    ensures error.None? <==> ValidPackage(p, rules)
    ensures error.Some? ==> RefusedFor(p, rules, error.value) && error.value != PackageTooLarge
  {
    error := MetadataError(p, rules);
    if error.None? { error := CheckAssets(p.assets, rules); }
  }

  /** Encodes exactly the valid packages; the size check at the end never fails. */
  method EncodePackage(p: Package, rules: Rules) returns (r: Result<Bytes, PackageError>)
    ensures r.Ok? <==> ValidPackage(p, rules)
    ensures r.Ok? ==> r.value == Encode(p) && Parse(r.value, rules) == Ok(p)
    ensures r.Err? ==> RefusedFor(p, rules, r.error) && r.error != PackageTooLarge
  {
    var error := CheckPackage(p, rules);
    if error.Some? { return Err(error.value); }
    var bytes := WritePackage(p);
    EncodedFacts(p, rules);
    if |bytes| > MAX_PACKAGE_LEN { return Err(PackageTooLarge); }
    return Ok(bytes);
  }

  method WritePackage(p: Package) returns (bytes: Bytes)
    ensures bytes == Encode(p)
  {
    bytes := AppendMany(Pack(HeaderOf(p), HEADER) + Join(Texts(p)), EncodeAsset, p.assets);
  }

  lemma EncodedFacts(p: Package, rules: Rules)
    requires ValidPackage(p, rules)
    ensures |Encode(p)| <= MAX_PACKAGE_LEN && Parse(Encode(p), rules) == Ok(p)
  {
    EncodedFits(p, rules);
    assert Encode(p) + [] == Encode(p);
    ParseEncoded(p, rules, []);
  }
}
