/** The application package format: one byte string per valid package. */
module Package {
  import opened Fields
  import opened LittleEndian
  import opened Objects

  const MAX_APP_ID_LEN: nat := 127
  const MAX_DISPLAY_NAME_LEN: nat := 255
  const MAX_VERSION_LEN: nat := 63
  const MAX_EXECUTABLE_LEN: nat := 64 * 1024 * 1024
  const MAX_ASSET_COUNT: nat := 64
  const MAX_ASSET_PATH_LEN: nat := 255
  const MAX_ASSET_DATA_LEN: nat := 1024 * 1024
  const MAX_TOTAL_ASSET_DATA_LEN: nat := 8 * 1024 * 1024
  const MAX_PACKAGE_LEN: nat := 80 * 1024 * 1024

  const MAGIC: nat := 0x0050_4B47
  const VERSION: nat := 1
  const HEADER_SIZE: nat := 24
  const ASSET_HEADER_SIZE: nat := 8

  /** Magic, version, flags, kind, assets, id, name and version lengths, format, executable length. */
  const HEADER: seq<nat> := [4, 2, 2, 2, 2, 2, 2, 2, 2, 4]

  /** Path length, flags, data length. */
  const ASSET_HEADER: seq<nat> := [2, 2, 4]

  datatype AppKind = Graphical | Command

  datatype ExecutableFormat = Elf | Wasm

  datatype Asset = Asset(path: Bytes, data: Bytes)

  datatype Package = Package(
    appId: Bytes,
    displayName: Bytes,
    version: Bytes,
    kind: AppKind,
    format: ExecutableFormat,
    executable: Bytes,
    assets: seq<Asset>)

  datatype PackageError =
    | PackageTooLarge | TruncatedHeader | BadMagic | UnsupportedVersion | UnknownHeaderFlags | UnknownKind
    | UnknownExecutableFormat | IncompatibleExecutableFormat | TooManyAssets | FieldTooLong | InvalidAppId
    | InvalidDisplayName | InvalidVersion | EmptyExecutable | ExecutableTooLarge | TruncatedMetadata
    | TruncatedExecutable | TruncatedAssetHeader | UnknownAssetFlags | AssetTooLarge | TotalAssetsTooLarge
    | TruncatedAsset | InvalidAssetPath | DuplicateAsset | TrailingData

  function KindToWire(kind: AppKind): nat { if kind == Graphical then 1 else 2 }

  function KindFromWire(value: nat): Option<AppKind>
  {
    if value == 1 then Some(Graphical) else if value == 2 then Some(Command) else None
  }

  function FormatToWire(format: ExecutableFormat): nat { if format == Elf then 0 else 1 }

  function FormatFromWire(value: nat): Option<ExecutableFormat>
  {
    if value == 0 then Some(Elf) else if value == 1 then Some(Wasm) else None
  }

  predicate Compatible(kind: AppKind, format: ExecutableFormat) { !(kind == Graphical && format == Wasm) }

  // -------------------------------------------------------------------- names

  predicate IsLower(b: u8) { 0x61 <= b <= 0x7A }
  predicate IsDigit(b: u8) { 0x30 <= b <= 0x39 }
  predicate IsAlphanumeric(b: u8) { IsLower(b) || IsDigit(b) || 0x41 <= b <= 0x5A }

  /** The pieces between separators; there is always one more piece than separators. */
  function Split(value: Bytes, separator: u8): (parts: seq<Bytes>)
    ensures |parts| >= 1
  {
    if value == [] then [[]]
    else
      var rest := Split(value[1..], separator);
      if value[0] == separator then [[]] + rest else [[value[0]] + rest[0]] + rest[1..]
  }

  predicate ValidIdPart(part: Bytes)
  {
    && part != [] && IsLower(part[0]) && part[|part| - 1] != 0x2D
    && forall i :: 0 <= i < |part| ==> IsLower(part[i]) || IsDigit(part[i]) || part[i] == 0x2D
  }

  predicate ValidAppId(value: Bytes)
  {
    && value != [] && |value| <= MAX_APP_ID_LEN
    && forall i :: 0 <= i < |Split(value, 0x2E)| ==> ValidIdPart(Split(value, 0x2E)[i])
  }

  predicate IsSeparator(b: u8) { b == 0x2E || b == 0x2D || b == 0x2B }

  /** Alphanumeric runs joined by single separators. */
  predicate ValidVersion(value: Bytes)
  {
    && value != [] && |value| <= MAX_VERSION_LEN
    && !IsSeparator(value[0]) && !IsSeparator(value[|value| - 1])
    && (forall i :: 0 <= i < |value| ==> IsAlphanumeric(value[i]) || IsSeparator(value[i]))
    && (forall i :: 0 <= i < |value| - 1 ==> !(IsSeparator(value[i]) && IsSeparator(value[i + 1])))
  }

  predicate ValidPathComponent(c: Bytes)
  {
    && c != [] && c != [0x2E] && c != [0x2E, 0x2E]
    && forall i :: 0 <= i < |c| ==> IsAlphanumeric(c[i]) || c[i] in {0x2D, 0x5F, 0x2E, 0x20}
  }

  predicate ValidAssetPath(value: Bytes)
  {
    && value != [] && |value| <= MAX_ASSET_PATH_LEN
    && value[0] != 0x2F && value[|value| - 1] != 0x2F && 0x5C !in value && 0x3A !in value
    && forall i :: 0 <= i < |Split(value, 0x2F)| ==> ValidPathComponent(Split(value, 0x2F)[i])
  }

  /** Which strings are acceptable; the format itself does not depend on it. */
  datatype Rules =
    Rules(appId: Bytes -> bool, displayName: Bytes -> bool, version: Bytes -> bool, assetPath: Bytes -> bool)

  /** The rules in force. `text` stands for UTF-8 without control characters or
      surrounding white space. */
  function StandardRules(text: Bytes -> bool): Rules
  {
    Rules(ValidAppId, (name: Bytes) => name != [] && |name| <= MAX_DISPLAY_NAME_LEN && text(name),
          ValidVersion, ValidAssetPath)
  }

  // ----------------------------------------------------------------- validity

  predicate ValidAsset(a: Asset, rules: Rules)
  {
    |a.path| <= MAX_ASSET_PATH_LEN && rules.assetPath(a.path) && |a.data| <= MAX_ASSET_DATA_LEN
  }

  function DataLen(assets: seq<Asset>): nat
  {
    if assets == [] then 0 else |assets[0].data| + DataLen(assets[1..])
  }

  predicate DistinctPaths(assets: seq<Asset>)
  {
    forall i, j :: 0 <= i < j < |assets| ==> assets[i].path != assets[j].path
  }

  predicate ValidAssets(assets: seq<Asset>, rules: Rules)
  {
    && |assets| <= MAX_ASSET_COUNT && DataLen(assets) <= MAX_TOTAL_ASSET_DATA_LEN && DistinctPaths(assets)
    && forall i :: 0 <= i < |assets| ==> ValidAsset(assets[i], rules)
  }

  predicate ValidPackage(p: Package, rules: Rules)
  {
    && |p.appId| <= MAX_APP_ID_LEN && rules.appId(p.appId)
    && |p.displayName| <= MAX_DISPLAY_NAME_LEN && rules.displayName(p.displayName)
    && |p.version| <= MAX_VERSION_LEN && rules.version(p.version)
    && Compatible(p.kind, p.format) && 0 < |p.executable| <= MAX_EXECUTABLE_LEN
    && ValidAssets(p.assets, rules)
  }

  // ----------------------------------------------------------------- encoding

  function HeaderOf(p: Package): seq<nat>
  {
    [MAGIC, VERSION, 0, KindToWire(p.kind), |p.assets|, |p.appId|, |p.displayName|, |p.version|,
     FormatToWire(p.format), |p.executable|]
  }

  function EncodeAsset(a: Asset): Bytes
  {
    Pack([|a.path|, 0, |a.data|], ASSET_HEADER) + (a.path + a.data)
  }

  function Texts(p: Package): seq<Bytes>
  {
    [p.appId, p.displayName, p.version, p.executable]
  }

  function Encode(p: Package): Bytes
  {
    Pack(HeaderOf(p), HEADER) + (Join(Texts(p)) + EncodeMany(EncodeAsset, p.assets))
  }

  // ------------------------------------------------------------------ parsing

  /** The asset at the front and the bytes behind it. */
  function ParseAsset(rest: Bytes, rules: Rules): Result<(Asset, Bytes), PackageError>
  {
    if |rest| < ASSET_HEADER_SIZE then Err(TruncatedAssetHeader)
    else
      assert Width(ASSET_HEADER) == ASSET_HEADER_SIZE;
      var v := Unpack(rest[..ASSET_HEADER_SIZE], ASSET_HEADER);
      var body := rest[ASSET_HEADER_SIZE..];
      if v[1] != 0 then Err(UnknownAssetFlags)
      else if v[0] > MAX_ASSET_PATH_LEN then Err(FieldTooLong)
      else if v[2] > MAX_ASSET_DATA_LEN then Err(AssetTooLarge)
      else if v[0] + v[2] > |body| then Err(TruncatedAsset)
      else if !rules.assetPath(body[..v[0]]) then Err(InvalidAssetPath)
      else Ok((Asset(body[..v[0]], body[v[0]..v[0] + v[2]]), body[v[0] + v[2]..]))
  }

  /** The next asset, as long as the assets together stay small enough. */
  function NextAsset(rules: Rules): (seq<Asset>, Bytes) -> Result<(Asset, Bytes), PackageError>
  {
    (sofar: seq<Asset>, rest: Bytes) =>
      var next := ParseAsset(rest, rules);
      if next.Ok? && DataLen(sofar) + |next.value.0.data| > MAX_TOTAL_ASSET_DATA_LEN then Err(TotalAssetsTooLarge)
      else next
  }

  function HeaderError(v: seq<nat>): Option<PackageError>
    requires |v| == 10
  {
    if v[0] != MAGIC then Some(BadMagic)
    else if v[1] != VERSION then Some(UnsupportedVersion)
    else if v[2] != 0 then Some(UnknownHeaderFlags)
    else if KindFromWire(v[3]).None? then Some(UnknownKind)
    else if v[4] > MAX_ASSET_COUNT then Some(TooManyAssets)
    else if FormatFromWire(v[8]).None? then Some(UnknownExecutableFormat)
    else if !Compatible(KindFromWire(v[3]).value, FormatFromWire(v[8]).value) then Some(IncompatibleExecutableFormat)
    else if v[5] > MAX_APP_ID_LEN || v[6] > MAX_DISPLAY_NAME_LEN || v[7] > MAX_VERSION_LEN then Some(FieldTooLong)
    else if v[9] == 0 then Some(EmptyExecutable)
    else if v[9] > MAX_EXECUTABLE_LEN then Some(ExecutableTooLarge)
    else None
  }

  /** Everything behind the header. */
  function ParseBody(v: seq<nat>, body: Bytes, rules: Rules): Result<Package, PackageError>
    requires |v| == 10 && HeaderError(v).None?
  {
    if v[5] + v[6] + v[7] > |body| then Err(TruncatedMetadata)
    else if v[5] + v[6] + v[7] + v[9] > |body| then Err(TruncatedExecutable)
    else
      FourWide(v[5], v[6], v[7], v[9]);
      var (t, rest) := Slice(body, [v[5], v[6], v[7], v[9]]);
      if !rules.appId(t[0]) then Err(InvalidAppId)
      else if !rules.displayName(t[1]) then Err(InvalidDisplayName)
      else if !rules.version(t[2]) then Err(InvalidVersion)
      else ParseTail(t, KindFromWire(v[3]).value, FormatFromWire(v[8]).value, rest, v[4], rules)
  }

  function ParseTail(t: seq<Bytes>, kind: AppKind, format: ExecutableFormat, rest: Bytes, n: nat, rules: Rules)
    : Result<Package, PackageError>
    requires |t| == 4
  {
    var assets := ParseMany(NextAsset(rules), [], rest, n);
    if assets.Err? then Err(assets.error)
    else if assets.value.1 != [] then Err(TrailingData)
    else if !DistinctPaths(assets.value.0) then Err(DuplicateAsset)
    else Ok(Package(t[0], t[1], t[2], kind, format, t[3], assets.value.0))
  }

  lemma FourWide(a: nat, b: nat, c: nat, d: nat)
    ensures Width([a, b, c, d]) == a + b + c + d
  {
    assert [a, b, c, d][1..] == [b, c, d] && [b, c, d][1..] == [c, d] && [c, d][1..] == [d] && [d][1..] == [];
    assert Width([d]) == d;
    assert Width([c, d]) == c + d;
    assert Width([b, c, d]) == b + c + d;
  }

  lemma HeaderWidth()
    ensures Width(HEADER) == HEADER_SIZE
  {
    assert HEADER[1..] == [2, 2, 2, 2, 2, 2, 2, 2, 4] && [2, 2, 2, 2, 2, 2, 2, 2, 4][1..] == [2, 2, 2, 2, 2, 2, 2, 4];
    assert Width([2, 2, 2, 2, 2, 2, 2, 4]) == 18 by {
      assert [2, 2, 2, 2, 2, 2, 2, 4][1..] == [2, 2, 2, 2, 2, 2, 4] && [2, 2, 2, 2, 2, 2, 4][1..] == [2, 2, 2, 2, 2, 4];
      assert [2, 2, 2, 2, 2, 4][1..] == [2, 2, 2, 2, 4] && [2, 2, 2, 2, 4][1..] == [2, 2, 2, 4];
      assert [2, 2, 2, 4][1..] == [2, 2, 4] && [2, 2, 4][1..] == [2, 4] && [2, 4][1..] == [4];
    }
  }

  function Parse(bytes: Bytes, rules: Rules): Result<Package, PackageError>
  {
    if |bytes| > MAX_PACKAGE_LEN then Err(PackageTooLarge)
    else if |bytes| < HEADER_SIZE then Err(TruncatedHeader)
    else
      HeaderWidth();
      var v := Unpack(bytes[..HEADER_SIZE], HEADER);
      if HeaderError(v).Some? then Err(HeaderError(v).value) else ParseBody(v, bytes[HEADER_SIZE..], rules)
  }

  // -------------------------------------------------------------- round trips

  lemma AssetHeaderFits(a: Asset, rules: Rules)
    requires ValidAsset(a, rules)
    ensures Fit([|a.path|, 0, |a.data|], ASSET_HEADER) && Width(ASSET_HEADER) == ASSET_HEADER_SIZE
  {
    assert Pow256(2) == 0x1_0000 && Pow256(4) == 0x1_0000_0000 by { assert Pow256(2) == 0x1_0000; }
  }

  lemma ThreeParts(a: Bytes, b: Bytes, c: Bytes)
    ensures (a + b + c)[..|a|] == a && (a + b + c)[|a|..|a| + |b|] == b && (a + b + c)[|a| + |b|..] == c
  {
  }

  /** An encoded asset parses back to itself, whatever follows. */
  lemma AssetRoundTrip(a: Asset, tail: Bytes, rules: Rules)
    requires ValidAsset(a, rules)
    ensures ParseAsset(EncodeAsset(a) + tail, rules) == Ok((a, tail))
  {
    var rest, v := EncodeAsset(a) + tail, [|a.path|, 0, |a.data|];
    AssetHeaderFits(a, rules);
    UnpackPack(v, ASSET_HEADER);
    Peel(Pack(v, ASSET_HEADER), a.path + a.data, tail);
    ThreeParts(a.path, a.data, tail);
  }

  /** Whatever parses as an asset is that asset's encoding. */
  lemma ParsedAssetIsEncoded(rest: Bytes, rules: Rules)
    requires ParseAsset(rest, rules).Ok?
    ensures ValidAsset(ParseAsset(rest, rules).value.0, rules)
    ensures rest == EncodeAsset(ParseAsset(rest, rules).value.0) + ParseAsset(rest, rules).value.1
  {
    assert Width(ASSET_HEADER) == ASSET_HEADER_SIZE;
    var v, body := Unpack(rest[..ASSET_HEADER_SIZE], ASSET_HEADER), rest[ASSET_HEADER_SIZE..];
    PackUnpack(rest[..ASSET_HEADER_SIZE], ASSET_HEADER);
    SplitTwice(body, v[0], v[2]);
    BehindPrefix(rest, ASSET_HEADER_SIZE);
    var path, data, tail := body[..v[0]], body[v[0]..v[0] + v[2]], body[v[0] + v[2]..];
    assert v == [|path|, 0, |data|];
    Regroup(rest[..ASSET_HEADER_SIZE], path + data, tail);
  }

  lemma BehindPrefix(bytes: Bytes, n: nat)
    requires n <= |bytes|
    ensures bytes == bytes[..n] + bytes[n..]
  {
  }

  lemma SplitTwice(bytes: Bytes, n: nat, m: nat)
    requires n + m <= |bytes|
    ensures bytes == (bytes[..n] + bytes[n..n + m]) + bytes[n + m..]
  {
  }

  lemma Regroup(a: Bytes, b: Bytes, c: Bytes)
    ensures a + (b + c) == (a + b) + c
  {
  }

  /** What may follow the assets so far. */
  function MayFollow(rules: Rules): (seq<Asset>, Asset) -> bool
  {
    (sofar: seq<Asset>, a: Asset) => ValidAsset(a, rules) && DataLen(sofar) + |a.data| <= MAX_TOTAL_ASSET_DATA_LEN
  }

  lemma AssetsAreFaithful(rules: Rules)
    ensures Faithful(NextAsset(rules), EncodeAsset, MayFollow(rules))
  {
    forall sofar, a, tail | MayFollow(rules)(sofar, a)
      ensures NextAsset(rules)(sofar, EncodeAsset(a) + tail) == Ok((a, tail))
    {
      AssetRoundTrip(a, tail, rules);
    }
    forall sofar, rest | NextAsset(rules)(sofar, rest).Ok?
      ensures MayFollow(rules)(sofar, NextAsset(rules)(sofar, rest).value.0)
      ensures rest == EncodeAsset(NextAsset(rules)(sofar, rest).value.0) + NextAsset(rules)(sofar, rest).value.1
    {
      ParsedAssetIsEncoded(rest, rules);
    }
  }

  lemma {:induction false} DataLenAppend(assets: seq<Asset>, a: Asset)
    ensures DataLen(assets + [a]) == DataLen(assets) + |a.data|
  {
    if assets == [] {
      assert [a][1..] == [];
    } else {
      assert (assets + [a])[1..] == assets[1..] + [a];
      DataLenAppend(assets[1..], a);
    }
  }

  /** The running checks amount to: every asset valid, and not too much data in all. */
  lemma {:induction false} ChainIsTotal(assets: seq<Asset>, n: nat, rules: Rules)
    requires n <= |assets|
    ensures (forall k :: 0 <= k < n ==> MayFollow(rules)(assets[..k], assets[k])) <==>
      (forall k :: 0 <= k < n ==> ValidAsset(assets[k], rules)) && DataLen(assets[..n]) <= MAX_TOTAL_ASSET_DATA_LEN
  {
    if n > 0 {
      ChainIsTotal(assets, n - 1, rules);
      DataLenAppend(assets[..n - 1], assets[n - 1]);
      assert assets[..n] == assets[..n - 1] + [assets[n - 1]];
    }
  }

  lemma HeaderFits(p: Package, rules: Rules)
    requires ValidPackage(p, rules)
    ensures Fit(HeaderOf(p), HEADER) && HeaderError(HeaderOf(p)).None?
  {
    assert Pow256(2) == 0x1_0000 && Pow256(4) == 0x1_0000_0000 by { assert Pow256(2) == 0x1_0000; }
  }

  lemma {:induction false} HeaderOffset(i: nat)
    requires i < 10
    ensures Width(HEADER[..i]) == if i == 0 then 0 else 2 + 2 * i
  {
    if i > 0 {
      HeaderOffset(i - 1);
      WidthNext(HEADER, i - 1);
    }
  }

  lemma HeaderNumber(p: Package, i: nat, at: nat, width: nat, rules: Rules)
    requires ValidPackage(p, rules) && i < 10 && at == (if i == 0 then 0 else 2 + 2 * i) && width == HEADER[i]
    ensures at + width <= |Encode(p)| && Number(Encode(p), at, width) == HeaderOf(p)[i]
  {
    HeaderOffset(i);
    HeaderFits(p, rules);
    WidthNext(HEADER, i);
    PackedAt(HeaderOf(p), HEADER, i, Join(Texts(p)) + EncodeMany(EncodeAsset, p.assets));
  }

  /** Where the numbers of a package stand: magic, format version, flags, kind, number of
      assets, the lengths of id, name and version, executable format and length. */
  lemma HeaderIsLaidOut(p: Package, rules: Rules)
    requires ValidPackage(p, rules)
    ensures
      var b := Encode(p);
      && |b| >= 24 && Number(b, 0, 4) == MAGIC && Number(b, 4, 2) == VERSION && Number(b, 6, 2) == 0
      && Number(b, 8, 2) == KindToWire(p.kind) && Number(b, 10, 2) == |p.assets| && Number(b, 12, 2) == |p.appId|
      && Number(b, 14, 2) == |p.displayName| && Number(b, 16, 2) == |p.version|
      && Number(b, 18, 2) == FormatToWire(p.format) && Number(b, 20, 4) == |p.executable|
  {
    HeaderNumber(p, 0, 0, 4, rules);
    HeaderNumber(p, 1, 4, 2, rules);
    HeaderNumber(p, 2, 6, 2, rules);
    HeaderNumber(p, 3, 8, 2, rules);
    HeaderNumber(p, 4, 10, 2, rules);
    HeaderNumber(p, 5, 12, 2, rules);
    HeaderNumber(p, 6, 14, 2, rules);
    HeaderNumber(p, 7, 16, 2, rules);
    HeaderNumber(p, 8, 18, 2, rules);
    HeaderNumber(p, 9, 20, 4, rules);
  }

  lemma AssetsRoundTrip(assets: seq<Asset>, tail: Bytes, rules: Rules)
    requires ValidAssets(assets, rules)
    ensures ParseMany(NextAsset(rules), [], EncodeMany(EncodeAsset, assets) + tail, |assets|) == Ok((assets, tail))
  {
    AssetsAreFaithful(rules);
    assert assets[..|assets|] == assets;
    ChainIsTotal(assets, |assets|, rules);
    AllRoundTrip(NextAsset(rules), EncodeAsset, MayFollow(rules), assets, tail);
  }

  lemma TailRoundTrip(p: Package, tail: Bytes, rules: Rules)
    requires ValidAssets(p.assets, rules)
    ensures ParseTail(Texts(p), p.kind, p.format, EncodeMany(EncodeAsset, p.assets) + tail, |p.assets|, rules) ==
      if tail == [] then Ok(p) else Err(TrailingData)
  {
    AssetsRoundTrip(p.assets, tail, rules);
  }

  lemma BodyRoundTrip(p: Package, rules: Rules, tail: Bytes)
    requires ValidPackage(p, rules) && HeaderError(HeaderOf(p)).None?
    ensures ParseBody(HeaderOf(p), Join(Texts(p)) + tail, rules)
         == ParseTail(Texts(p), p.kind, p.format, tail, |p.assets|, rules)
  {
    FourWide(|p.appId|, |p.displayName|, |p.version|, |p.executable|);
    assert Lengths(Texts(p)) == [|p.appId|, |p.displayName|, |p.version|, |p.executable|];
    SliceJoin(Texts(p), tail);
  }

  lemma HeaderRoundTrip(p: Package, rest: Bytes, rules: Rules)
    requires ValidPackage(p, rules)
    ensures
      var bytes := Pack(HeaderOf(p), HEADER) + rest;
      && Width(HEADER) == HEADER_SIZE <= |bytes| && bytes[HEADER_SIZE..] == rest
      && Unpack(bytes[..HEADER_SIZE], HEADER) == HeaderOf(p) && HeaderError(HeaderOf(p)).None?
  {
    HeaderWidth();
    HeaderFits(p, rules);
    UnpackPack(HeaderOf(p), HEADER);
    var bytes := Pack(HeaderOf(p), HEADER) + rest;
    assert bytes[..HEADER_SIZE] == Pack(HeaderOf(p), HEADER);
  }

  lemma ParseSplits(bytes: Bytes, v: seq<nat>, body: Bytes, rules: Rules)
    requires HEADER_SIZE <= |bytes| <= MAX_PACKAGE_LEN && Width(HEADER) == HEADER_SIZE && |v| == 10
    requires Unpack(bytes[..HEADER_SIZE], HEADER) == v && bytes[HEADER_SIZE..] == body && HeaderError(v).None?
    ensures Parse(bytes, rules) == ParseBody(v, body, rules)
  {
  }

  lemma EncodedBody(p: Package, rules: Rules, rest: Bytes)
    requires ValidPackage(p, rules) && HEADER_SIZE + |Join(Texts(p)) + rest| <= MAX_PACKAGE_LEN
    ensures Parse(Pack(HeaderOf(p), HEADER) + (Join(Texts(p)) + rest), rules)
         == ParseTail(Texts(p), p.kind, p.format, rest, |p.assets|, rules)
  {
    HeaderRoundTrip(p, Join(Texts(p)) + rest, rules);
    ParseSplits(Pack(HeaderOf(p), HEADER) + (Join(Texts(p)) + rest), HeaderOf(p), Join(Texts(p)) + rest, rules);
    BodyRoundTrip(p, rules, rest);
  }

  /** A valid package parses back from its encoding, and with anything after it does not. */
  lemma ParseEncoded(p: Package, rules: Rules, tail: Bytes)
    requires ValidPackage(p, rules) && |Encode(p) + tail| <= MAX_PACKAGE_LEN
    ensures Parse(Encode(p) + tail, rules) == if tail == [] then Ok(p) else Err(TrailingData)
  {
    var rest := EncodeMany(EncodeAsset, p.assets) + tail;
    FourParts(Pack(HeaderOf(p), HEADER), Join(Texts(p)), EncodeMany(EncodeAsset, p.assets), tail);
    HeaderWidth();
    EncodedBody(p, rules, rest);
    TailRoundTrip(p, tail, rules);
  }

  lemma FourParts(a: Bytes, b: Bytes, c: Bytes, d: Bytes)
    ensures a + (b + c) + d == a + (b + (c + d))
  {
  }

  /** Every accepted byte string is the encoding of the one package it parses to. */
  lemma ParsedIsEncoded(bytes: Bytes, rules: Rules)
    requires Parse(bytes, rules).Ok?
    ensures ValidPackage(Parse(bytes, rules).value, rules) && Encode(Parse(bytes, rules).value) == bytes
  {
    var v := ParsedHeader(bytes, rules);
    ParsedBodyIsEncoded(v, bytes[HEADER_SIZE..], rules);
    BehindPrefix(bytes, HEADER_SIZE);
  }

  lemma ParsedHeader(bytes: Bytes, rules: Rules) returns (v: seq<nat>)
    requires Parse(bytes, rules).Ok?
    ensures |v| == 10 && HEADER_SIZE <= |bytes| && Pack(v, HEADER) == bytes[..HEADER_SIZE]
    ensures HeaderError(v).None? && Parse(bytes, rules) == ParseBody(v, bytes[HEADER_SIZE..], rules)
  {
    HeaderWidth();
    v := Unpack(bytes[..HEADER_SIZE], HEADER);
    PackUnpack(bytes[..HEADER_SIZE], HEADER);
  }

  lemma ParsedAssets(rest: Bytes, n: nat, rules: Rules)
    requires ParseMany(NextAsset(rules), [], rest, n).Ok?
    ensures
      var (assets, tail) := ParseMany(NextAsset(rules), [], rest, n).value;
      && |assets| == n && DataLen(assets) <= MAX_TOTAL_ASSET_DATA_LEN
      && (forall k :: 0 <= k < n ==> ValidAsset(assets[k], rules))
      && rest == EncodeMany(EncodeAsset, assets) + tail
  {
    AssetsAreFaithful(rules);
    ManyParsed(NextAsset(rules), EncodeAsset, MayFollow(rules), [], rest, n);
    var assets := ParseMany(NextAsset(rules), [], rest, n).value.0;
    assert assets[0..] == assets == assets[..n];
    ChainIsTotal(assets, n, rules);
  }

  lemma ParsedTailIsEncoded(t: seq<Bytes>, kind: AppKind, format: ExecutableFormat, rest: Bytes, n: nat, rules: Rules)
    requires |t| == 4 && n <= MAX_ASSET_COUNT && ParseTail(t, kind, format, rest, n, rules).Ok?
    ensures
      var p := ParseTail(t, kind, format, rest, n, rules).value;
      && Texts(p) == t && p.kind == kind && p.format == format
      && ValidAssets(p.assets, rules) && |p.assets| == n && rest == EncodeMany(EncodeAsset, p.assets)
  {
    ParsedAssets(rest, n, rules);
    var assets := ParseMany(NextAsset(rules), [], rest, n).value.0;
    assert EncodeMany(EncodeAsset, assets) + [] == EncodeMany(EncodeAsset, assets);
  }

  lemma ParsedBodyIsEncoded(v: seq<nat>, body: Bytes, rules: Rules)
    requires |v| == 10 && HeaderError(v).None? && ParseBody(v, body, rules).Ok?
    ensures
      var p := ParseBody(v, body, rules).value;
      ValidPackage(p, rules) && v == HeaderOf(p) && body == Join(Texts(p)) + EncodeMany(EncodeAsset, p.assets)
  {
    var t, rest := ParsedTexts(v, body, rules);
    ParsedTailIsEncoded(t, KindFromWire(v[3]).value, FormatFromWire(v[8]).value, rest, v[4], rules);
    ParsedHeaderIs(v, t, ParseBody(v, body, rules).value, rules);
  }

  /** The package put together from a header, its texts and its assets. */
  lemma ParsedHeaderIs(v: seq<nat>, t: seq<Bytes>, p: Package, rules: Rules)
    requires |v| == 10 && HeaderError(v).None? && |t| == 4 && Lengths(t) == [v[5], v[6], v[7], v[9]] && Texts(p) == t
    requires p.kind == KindFromWire(v[3]).value && p.format == FormatFromWire(v[8]).value && |p.assets| == v[4]
    requires rules.appId(t[0]) && rules.displayName(t[1]) && rules.version(t[2]) && ValidAssets(p.assets, rules)
    ensures ValidPackage(p, rules) && v == HeaderOf(p)
  {
    assert Lengths(t)[0] == v[5] && Lengths(t)[1] == v[6] && Lengths(t)[2] == v[7] && Lengths(t)[3] == v[9];
    assert t[0] == p.appId && t[1] == p.displayName && t[2] == p.version && t[3] == p.executable;
  }

  lemma ParsedTexts(v: seq<nat>, body: Bytes, rules: Rules) returns (t: seq<Bytes>, rest: Bytes)
    requires |v| == 10 && HeaderError(v).None? && ParseBody(v, body, rules).Ok?
    ensures |t| == 4 && Lengths(t) == [v[5], v[6], v[7], v[9]] && body == Join(t) + rest
    ensures rules.appId(t[0]) && rules.displayName(t[1]) && rules.version(t[2])
    ensures ParseBody(v, body, rules) ==
      ParseTail(t, KindFromWire(v[3]).value, FormatFromWire(v[8]).value, rest, v[4], rules)
  {
    var lengths := [v[5], v[6], v[7], v[9]];
    FourWide(v[5], v[6], v[7], v[9]);
    t, rest := Slice(body, lengths).0, Slice(body, lengths).1;
    SliceLengths(body, lengths);
    JoinSlice(body, lengths);
  }

  lemma {:induction false} AssetsSize(assets: seq<Asset>, rules: Rules)
    requires forall i :: 0 <= i < |assets| ==> ValidAsset(assets[i], rules)
    ensures |EncodeMany(EncodeAsset, assets)| <= |assets| * (ASSET_HEADER_SIZE + MAX_ASSET_PATH_LEN) + DataLen(assets)
  {
    if assets != [] {
      AssetsSize(assets[1..], rules);
      AssetHeaderFits(assets[0], rules);
    }
  }

  /** The encoder's own limits keep every package within the size limit. */
  lemma EncodedFits(p: Package, rules: Rules)
    requires ValidPackage(p, rules)
    ensures |Encode(p)| <= MAX_PACKAGE_LEN
  {
    HeaderWidth();
    AssetsSize(p.assets, rules);
    FourWide(|p.appId|, |p.displayName|, |p.version|, |p.executable|);
    assert Lengths(Texts(p)) == [|p.appId|, |p.displayName|, |p.version|, |p.executable|];
  }

  /** No encoding is a strict prefix of another, and no two packages share one. */
  lemma EncodingIsPrefixFree(p: Package, q: Package, rules: Rules)
    requires ValidPackage(p, rules) && ValidPackage(q, rules) && Encode(p) <= Encode(q)
    ensures p == q
  {
    var tail := Encode(q)[|Encode(p)|..];
    EncodedFits(q, rules);
    assert Encode(q) == Encode(p) + tail == Encode(q) + [];
    ParseEncoded(p, rules, tail);
    ParseEncoded(q, rules, []);
  }

  /** So no accepted package is a strict prefix of another. */
  lemma NoStrictPrefix(a: Bytes, b: Bytes, rules: Rules)
    requires Parse(a, rules).Ok? && Parse(b, rules).Ok? && a <= b
    ensures a == b
  {
    ParsedIsEncoded(a, rules);
    ParsedIsEncoded(b, rules);
    EncodingIsPrefixFree(Parse(a, rules).value, Parse(b, rules).value, rules);
  }
}
