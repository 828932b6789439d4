/** The installed-application registry: its snapshot format and generation filenames. */
module Registry {
  import opened Fields
  import opened LittleEndian
  import opened Objects
  import P = Package

  const MAX_INSTALLED_APPS: nat := 1024
  const MAX_REGISTRY_LEN: nat := 1024 * 1024
  const DIGEST_LEN: nat := 32
  const MAX_GENERATION_FILENAME_LEN: nat := P.MAX_APP_ID_LEN + 1 + 2 * DIGEST_LEN + 5

  const MAGIC: nat := 0x0049_4B47
  const VERSION: nat := 1
  const HEADER_SIZE: nat := 12
  const HEADER: seq<nat> := [4, 2, 2, 4]

  /** Lengths of id, name, version and filename; kind, flags, provenance, format; executable
      length. The two digests follow. */
  const ENTRY_HEADER: seq<nat> := [2, 2, 2, 2, 2, 2, 2, 2, 8]
  const ENTRY_NUMBERS: nat := 24
  const ENTRY_HEADER_SIZE: nat := 88
  const PROVENANCE_PACKAGE: nat := 1

  datatype InstalledApp = InstalledApp(
    appId: Bytes,
    displayName: Bytes,
    version: Bytes,
    kind: P.AppKind,
    filename: Bytes,
    format: P.ExecutableFormat,
    digest: Bytes,
    length: nat,
    wasmTrusted: bool,
    packageDigest: Bytes)

  datatype RegistryError =
    | SnapshotTooLarge | TruncatedHeader | BadMagic | UnsupportedVersion | UnknownHeaderFlags | TooManyEntries
    | TruncatedEntryHeader | UnknownEntryFlags | TrustedWasmFlagOnElf | UnknownKind | UnknownExecutableFormat
    | IncompatibleExecutableFormat | UnknownProvenance | FieldTooLong | TruncatedEntry | InvalidAppId
    | InvalidDisplayName | InvalidVersion | InvalidExecutableLength | InvalidGenerationFilename
    | NonCanonicalOrder | DuplicateGenerationFilename | TrailingData

  // ---------------------------------------------------------------- filenames

  function HexDigit(n: nat): u8
    requires n < 16
  {
    if n < 10 then 0x30 + n else 0x57 + n
  }

  function Hex(bytes: Bytes): (h: Bytes)
    ensures |h| == 2 * |bytes|
  {
    if bytes == [] then [] else [HexDigit(bytes[0] / 16), HexDigit(bytes[0] % 16)] + Hex(bytes[1..])
  }

  function Extension(format: P.ExecutableFormat): Bytes
  {
    if format == P.Elf then [0x65, 0x6C, 0x66] else [0x77, 0x61, 0x73, 0x6D]
  }

  function Filename(appId: Bytes, digest: Bytes, format: P.ExecutableFormat): Bytes
  {
    appId + ([0x2D] + (Hex(digest) + ([0x2E] + Extension(format))))
  }

  lemma {:induction false} HexIsInjective(a: Bytes, b: Bytes)
    requires |a| == |b| && Hex(a) == Hex(b)
    ensures a == b
  {
    if a != [] {
      var x, y := Hex(a), Hex(b);
      assert x[0] == y[0] && x[1] == y[1];
      assert Hex(a[1..]) == x[2..] == y[2..] == Hex(b[1..]);
      HexIsInjective(a[1..], b[1..]);
    }
  }

  /** The value of a lower-case hexadecimal digit. */
  function HexValue(c: u8): Option<nat>
  {
    if '0' as int <= c <= '9' as int then Some(c - '0' as int)
    else if 'a' as int <= c <= 'f' as int then Some(c - 'a' as int + 10)
    else None
  }

  lemma {:induction false} HexReadsBack(bytes: Bytes, i: nat)
    requires i < |bytes|
    ensures
      var high, low := HexValue(Hex(bytes)[2 * i]), HexValue(Hex(bytes)[2 * i + 1]);
      high.Some? && low.Some? && 16 * high.value + low.value == bytes[i]
  {
    if i > 0 {
      HexReadsBack(bytes[1..], i - 1);
      assert Hex(bytes)[2 * i] == Hex(bytes[1..])[2 * (i - 1)];
      assert Hex(bytes)[2 * i + 1] == Hex(bytes[1..])[2 * (i - 1) + 1];
    }
  }

  /** A filename is the id, a dash, the digest in hexadecimal, and the extension. */
  lemma FilenameIsSpelled(appId: Bytes, digest: Bytes, format: P.ExecutableFormat, i: nat)
    requires i < |digest|
    ensures
      var name, n := Filename(appId, digest, format), |appId|;
      var high, low := HexValue(name[n + 1 + 2 * i]), HexValue(name[n + 2 + 2 * i]);
      var extension := if format == P.Elf then ".elf" else ".wasm";
      && name[..n] == appId && name[n] == '-' as int
      && high.Some? && low.Some? && 16 * high.value + low.value == digest[i]
      && |name| == n + 1 + 2 * |digest| + |extension|
      && forall k :: 0 <= k < |extension| ==> name[n + 1 + 2 * |digest| + k] == extension[k] as int
  {
    HexReadsBack(digest, i);
    var name, n := Filename(appId, digest, format), |appId|;
    assert name[n + 1..n + 1 + 2 * |digest|] == Hex(digest);
    assert name[n + 1 + 2 * i] == Hex(digest)[2 * i] && name[n + 2 + 2 * i] == Hex(digest)[2 * i + 1];
  }

  /** A filename determines the application, the digest and the format. */
  lemma FilenameIsInjective(a: Bytes, d: Bytes, f: P.ExecutableFormat, b: Bytes, e: Bytes, g: P.ExecutableFormat)
    requires |d| == |e| == DIGEST_LEN && Filename(a, d, f) == Filename(b, e, g)
    ensures a == b && d == e && f == g
  {
    var x, y := Filename(a, d, f), Filename(b, e, g);
    assert x[|x| - 1] == Extension(f)[|Extension(f)| - 1] && y[|y| - 1] == Extension(g)[|Extension(g)| - 1];
    assert f == g;
    var n := |a|;
    assert n == |b|;
    assert a == x[..n] == y[..n] == b;
    assert Hex(d) == x[n + 1..n + 65] == y[n + 1..n + 65] == Hex(e);
    HexIsInjective(d, e);
  }

  // -------------------------------------------------------------------- order

  /** Byte-wise dictionary order. */
  predicate Less(a: Bytes, b: Bytes)
  {
    b != [] && (a == [] || a[0] < b[0] || (a[0] == b[0] && Less(a[1..], b[1..])))
  }

  /** At byte `k` the two part, `a` first. */
  predicate PartsAt(a: Bytes, b: Bytes, k: nat)
  {
    k <= |a| && k < |b| && a[..k] == b[..k] && (k == |a| || a[k] < b[k])
  }

  /** Ids are ordered byte by byte, a prefix first. */
  lemma {:induction false} LessIsLexicographic(a: Bytes, b: Bytes)
    ensures Less(a, b) <==> exists k: nat :: PartsAt(a, b, k)
  {
    if a != [] && b != [] && a[0] == b[0] {
      LessIsLexicographic(a[1..], b[1..]);
      if Less(a, b) {
        var k: nat :| PartsAt(a[1..], b[1..], k);
        assert a[..k + 1] == [a[0]] + a[1..][..k] && b[..k + 1] == [b[0]] + b[1..][..k];
        assert PartsAt(a, b, k + 1);
      }
      if k: nat :| PartsAt(a, b, k) {
        assert k > 0;
        assert a[1..][..k - 1] == a[..k][1..] && b[1..][..k - 1] == b[..k][1..];
        assert PartsAt(a[1..], b[1..], k - 1);
      }
    } else if Less(a, b) {
      assert PartsAt(a, b, 0);
    } else if k: nat :| PartsAt(a, b, k) && k > 0 {
      SameStart(a, b, k);
    }
  }

  lemma SameStart(a: Bytes, b: Bytes, k: nat)
    requires PartsAt(a, b, k) && k > 0
    ensures a[0] == b[0]
  {
    assert a[..k][0] == b[..k][0];
  }

  lemma {:induction false} LessIsStrict(a: Bytes)
    ensures !Less(a, a)
  {
    if a != [] { LessIsStrict(a[1..]); }
  }

  lemma {:induction false} LessIsTransitive(a: Bytes, b: Bytes, c: Bytes)
    requires Less(a, b) && Less(b, c)
    ensures Less(a, c)
  {
    if a != [] && a[0] == b[0] == c[0] { LessIsTransitive(a[1..], b[1..], c[1..]); }
  }

  lemma {:induction false} LessIsTotal(a: Bytes, b: Bytes)
    ensures Less(a, b) || Less(b, a) || a == b
  {
    if a != [] && b != [] && a[0] == b[0] {
      LessIsTotal(a[1..], b[1..]);
      assert a == [a[0]] + a[1..] && b == [b[0]] + b[1..];
    }
  }

  // ----------------------------------------------------------------- validity

  predicate ValidEntry(e: InstalledApp, rules: P.Rules)
  {
    && |e.appId| <= P.MAX_APP_ID_LEN && rules.appId(e.appId)
    && |e.displayName| <= P.MAX_DISPLAY_NAME_LEN && rules.displayName(e.displayName)
    && |e.version| <= P.MAX_VERSION_LEN && rules.version(e.version)
    && P.Compatible(e.kind, e.format) && 0 < e.length <= P.MAX_EXECUTABLE_LEN
    && |e.digest| == DIGEST_LEN && |e.packageDigest| == DIGEST_LEN
    && e.filename == Filename(e.appId, e.digest, e.format)
    && (e.wasmTrusted ==> e.format == P.Wasm)
  }

  /** Strictly ascending by application id. */
  predicate Ascending(entries: seq<InstalledApp>)
  {
    forall i, j :: 0 <= i < j < |entries| ==> Less(entries[i].appId, entries[j].appId)
  }

  predicate ValidRegistry(entries: seq<InstalledApp>, rules: P.Rules)
  {
    && |entries| <= MAX_INSTALLED_APPS && Ascending(entries)
    && forall i :: 0 <= i < |entries| ==> ValidEntry(entries[i], rules)
  }

  // ----------------------------------------------------------------- encoding

  function NumbersOf(e: InstalledApp): seq<nat>
  {
    [|e.appId|, |e.displayName|, |e.version|, |e.filename|, P.KindToWire(e.kind), if e.wasmTrusted then 1 else 0,
     PROVENANCE_PACKAGE, P.FormatToWire(e.format), e.length]
  }

  function TextsOf(e: InstalledApp): seq<Bytes>
  {
    [e.digest, e.packageDigest, e.appId, e.displayName, e.version, e.filename]
  }

  function EncodeEntry(e: InstalledApp): Bytes
  {
    Pack(NumbersOf(e), ENTRY_HEADER) + Join(TextsOf(e))
  }

  function Encode(entries: seq<InstalledApp>): Bytes
  {
    Pack([MAGIC, VERSION, 0, |entries|], HEADER) + EncodeMany(EncodeEntry, entries)
  }

  // ------------------------------------------------------------------ parsing

  /** What the numbers of an entry header may be. */
  function NumbersError(v: seq<nat>): Option<RegistryError>
    requires |v| == 9
  {
    if v[0] > P.MAX_APP_ID_LEN || v[1] > P.MAX_DISPLAY_NAME_LEN || v[2] > P.MAX_VERSION_LEN
       || v[3] > MAX_GENERATION_FILENAME_LEN then Some(FieldTooLong)
    else if P.KindFromWire(v[4]).None? then Some(UnknownKind)
    else if v[5] > 1 then Some(UnknownEntryFlags)
    else if v[6] != PROVENANCE_PACKAGE then Some(UnknownProvenance)
    else if P.FormatFromWire(v[7]).None? then Some(UnknownExecutableFormat)
    else if !P.Compatible(P.KindFromWire(v[4]).value, P.FormatFromWire(v[7]).value) then
      Some(IncompatibleExecutableFormat)
    else if v[5] == 1 && P.FormatFromWire(v[7]).value != P.Wasm then Some(TrustedWasmFlagOnElf)
    else if v[8] == 0 || v[8] > P.MAX_EXECUTABLE_LEN then Some(InvalidExecutableLength)
    else None
  }

  function EntryOf(v: seq<nat>, t: seq<Bytes>): InstalledApp
    requires |v| == 9 && NumbersError(v).None? && |t| == 6
  {
    InstalledApp(
      t[2], t[3], t[4], P.KindFromWire(v[4]).value, t[5], P.FormatFromWire(v[7]).value, t[0], v[8], v[5] == 1, t[1])
  }

  function TextsError(e: InstalledApp, rules: P.Rules): Option<RegistryError>
  {
    if !rules.appId(e.appId) then Some(InvalidAppId)
    else if !rules.displayName(e.displayName) then Some(InvalidDisplayName)
    else if !rules.version(e.version) then Some(InvalidVersion)
    else if e.filename != Filename(e.appId, e.digest, e.format) then Some(InvalidGenerationFilename)
    else None
  }

  function TextLengths(v: seq<nat>): seq<nat>
    requires |v| == 9
  {
    [DIGEST_LEN, DIGEST_LEN, v[0], v[1], v[2], v[3]]
  }

  function ParseTexts(v: seq<nat>, body: Bytes, rules: P.Rules): Result<(InstalledApp, Bytes), RegistryError>
    requires |v| == 9 && NumbersError(v).None?
  {
    if Width(TextLengths(v)) > |body| then Err(TruncatedEntry)
    else
      var (t, rest) := Slice(body, TextLengths(v));
      var e := EntryOf(v, t);
      if TextsError(e, rules).Some? then Err(TextsError(e, rules).value) else Ok((e, rest))
  }

  lemma EntryWidth()
    ensures Width(ENTRY_HEADER) == ENTRY_NUMBERS
  {
    assert ENTRY_HEADER[1..] == [2, 2, 2, 2, 2, 2, 2, 8] && [2, 2, 2, 2, 2, 2, 2, 8][1..] == [2, 2, 2, 2, 2, 2, 8];
    assert Width([2, 2, 2, 2, 2, 2, 8]) == 20 by {
      assert [2, 2, 2, 2, 2, 2, 8][1..] == [2, 2, 2, 2, 2, 8] && [2, 2, 2, 2, 2, 8][1..] == [2, 2, 2, 2, 8];
      assert [2, 2, 2, 2, 8][1..] == [2, 2, 2, 8] && [2, 2, 2, 8][1..] == [2, 2, 8] && [2, 2, 8][1..] == [2, 8];
      assert [2, 8][1..] == [8];
    }
  }

  function ParseEntry(rest: Bytes, rules: P.Rules): Result<(InstalledApp, Bytes), RegistryError>
  {
    if |rest| < ENTRY_HEADER_SIZE then Err(TruncatedEntryHeader)
    else
      EntryWidth();
      var v := Unpack(rest[..ENTRY_NUMBERS], ENTRY_HEADER);
      if NumbersError(v).Some? then Err(NumbersError(v).value) else ParseTexts(v, rest[ENTRY_NUMBERS..], rules)
  }

  /** No earlier entry has this filename. */
  predicate NewFilename(sofar: seq<InstalledApp>, e: InstalledApp)
  {
    forall i :: 0 <= i < |sofar| ==> sofar[i].filename != e.filename
  }

  predicate InOrder(sofar: seq<InstalledApp>, e: InstalledApp)
  {
    sofar != [] ==> Less(sofar[|sofar| - 1].appId, e.appId)
  }

  /** Takes a parsed entry only behind entries it may follow. */
  function Admit(sofar: seq<InstalledApp>, next: Result<(InstalledApp, Bytes), RegistryError>)
    : Result<(InstalledApp, Bytes), RegistryError>
  {
    if next.Err? then next
    else if !InOrder(sofar, next.value.0) then Err(NonCanonicalOrder)
    else if !NewFilename(sofar, next.value.0) then Err(DuplicateGenerationFilename)
    else next
  }

  function NextEntry(rules: P.Rules): (seq<InstalledApp>, Bytes) -> Result<(InstalledApp, Bytes), RegistryError>
  {
    (sofar: seq<InstalledApp>, rest: Bytes) => Admit(sofar, ParseEntry(rest, rules))
  }

  function Parse(bytes: Bytes, rules: P.Rules): Result<seq<InstalledApp>, RegistryError>
  {
    if |bytes| > MAX_REGISTRY_LEN then Err(SnapshotTooLarge)
    else if |bytes| < HEADER_SIZE then Err(TruncatedHeader)
    else
      P.FourWide(4, 2, 2, 4);
      var v := Unpack(bytes[..HEADER_SIZE], HEADER);
      if v[0] != MAGIC then Err(BadMagic)
      else if v[1] != VERSION then Err(UnsupportedVersion)
      else if v[2] != 0 then Err(UnknownHeaderFlags)
      else if v[3] > MAX_INSTALLED_APPS then Err(TooManyEntries)
      else ParseEntries(bytes[HEADER_SIZE..], v[3], rules)
  }

  function ParseEntries(rest: Bytes, n: nat, rules: P.Rules): Result<seq<InstalledApp>, RegistryError>
  {
    var entries := ParseMany(NextEntry(rules), [], rest, n);
    if entries.Err? then Err(entries.error)
    else if entries.value.1 != [] then Err(TrailingData)
    else Ok(entries.value.0)
  }

  // -------------------------------------------------------------- round trips

  lemma NumbersFit(e: InstalledApp, rules: P.Rules)
    requires ValidEntry(e, rules)
    ensures Fit(NumbersOf(e), ENTRY_HEADER) && NumbersError(NumbersOf(e)).None?
  {
    assert Pow256(2) == 0x1_0000;
    assert Pow256(4) == 0x1_0000_0000;
    assert Pow256(8) >= Pow256(4) by { assert Pow256(6) >= Pow256(4); }
  }

  lemma {:induction false} EntryOffset(i: nat)
    requires i < 9
    ensures Width(ENTRY_HEADER[..i]) == 2 * i
  {
    if i > 0 {
      EntryOffset(i - 1);
      WidthNext(ENTRY_HEADER, i - 1);
    }
  }

  lemma EntryNumber(e: InstalledApp, i: nat, rules: P.Rules)
    requires ValidEntry(e, rules) && i < 9
    ensures
      var width := if i == 8 then 8 else 2;
      2 * i + width <= |EncodeEntry(e)| && Number(EncodeEntry(e), 2 * i, width) == NumbersOf(e)[i]
  {
    EntryOffset(i);
    NumbersFit(e, rules);
    WidthNext(ENTRY_HEADER, i);
    PackedAt(NumbersOf(e), ENTRY_HEADER, i, Join(TextsOf(e)));
  }

  /** Where the numbers of an entry stand: the lengths of id, name, version and filename,
      kind, trust, provenance, executable format and length. */
  lemma EntryIsLaidOut(e: InstalledApp, rules: P.Rules)
    requires ValidEntry(e, rules)
    ensures
      var b := EncodeEntry(e);
      && |b| >= 24 && Number(b, 0, 2) == |e.appId| && Number(b, 2, 2) == |e.displayName|
      && Number(b, 4, 2) == |e.version| && Number(b, 6, 2) == |e.filename| && Number(b, 8, 2) == P.KindToWire(e.kind)
      && Number(b, 10, 2) == (if e.wasmTrusted then 1 else 0) && Number(b, 12, 2) == PROVENANCE_PACKAGE
      && Number(b, 14, 2) == P.FormatToWire(e.format) && Number(b, 16, 8) == e.length
  {
    EntryNumber(e, 0, rules);
    EntryNumber(e, 1, rules);
    EntryNumber(e, 2, rules);
    EntryNumber(e, 3, rules);
    EntryNumber(e, 4, rules);
    EntryNumber(e, 5, rules);
    EntryNumber(e, 6, rules);
    EntryNumber(e, 7, rules);
    EntryNumber(e, 8, rules);
  }

  lemma EntryHeaderRoundTrip(e: InstalledApp, rest: Bytes, rules: P.Rules)
    requires ValidEntry(e, rules)
    ensures
      var bytes := Pack(NumbersOf(e), ENTRY_HEADER) + rest;
      && Width(ENTRY_HEADER) == ENTRY_NUMBERS <= |bytes| && bytes[ENTRY_NUMBERS..] == rest
      && Unpack(bytes[..ENTRY_NUMBERS], ENTRY_HEADER) == NumbersOf(e) && NumbersError(NumbersOf(e)).None?
  {
    EntryWidth();
    NumbersFit(e, rules);
    UnpackPack(NumbersOf(e), ENTRY_HEADER);
    assert (Pack(NumbersOf(e), ENTRY_HEADER) + rest)[..ENTRY_NUMBERS] == Pack(NumbersOf(e), ENTRY_HEADER);
  }

  lemma TextsRoundTrip(e: InstalledApp, tail: Bytes, rules: P.Rules)
    requires ValidEntry(e, rules) && NumbersError(NumbersOf(e)).None?
    ensures ParseTexts(NumbersOf(e), Join(TextsOf(e)) + tail, rules) == Ok((e, tail))
  {
    assert Lengths(TextsOf(e)) == TextLengths(NumbersOf(e));
    SliceJoin(TextsOf(e), tail);
  }

  lemma SixWide(a: nat, b: nat, c: nat, d: nat, e: nat, f: nat)
    ensures Width([a, b, c, d, e, f]) == a + b + c + d + e + f
  {
    assert [a, b, c, d, e, f][1..] == [b, c, d, e, f] && [b, c, d, e, f][1..] == [c, d, e, f];
    P.FourWide(c, d, e, f);
    assert Width([b, c, d, e, f]) == b + Width([c, d, e, f]);
  }

  lemma EntryLength(e: InstalledApp)
    ensures |EncodeEntry(e)| ==
      ENTRY_NUMBERS + |e.digest| + |e.packageDigest| + |e.appId| + |e.displayName| + |e.version| + |e.filename|
  {
    EntryWidth();
    SixWide(|e.digest|, |e.packageDigest|, |e.appId|, |e.displayName|, |e.version|, |e.filename|);
    assert Lengths(TextsOf(e)) ==
      [|e.digest|, |e.packageDigest|, |e.appId|, |e.displayName|, |e.version|, |e.filename|];
  }

  lemma EntrySplits(rest: Bytes, v: seq<nat>, body: Bytes, rules: P.Rules)
    requires ENTRY_HEADER_SIZE <= |rest| && Width(ENTRY_HEADER) == ENTRY_NUMBERS && |v| == 9
    requires Unpack(rest[..ENTRY_NUMBERS], ENTRY_HEADER) == v && rest[ENTRY_NUMBERS..] == body && NumbersError(v).None?
    ensures ParseEntry(rest, rules) == ParseTexts(v, body, rules)
  {
  }

  lemma EncodedNumbers(e: InstalledApp, body: Bytes, rules: P.Rules)
    requires ValidEntry(e, rules) && ENTRY_NUMBERS + |body| >= ENTRY_HEADER_SIZE
    ensures NumbersError(NumbersOf(e)).None?
    ensures ParseEntry(Pack(NumbersOf(e), ENTRY_HEADER) + body, rules) == ParseTexts(NumbersOf(e), body, rules)
  {
    EntryHeaderRoundTrip(e, body, rules);
    EntrySplits(Pack(NumbersOf(e), ENTRY_HEADER) + body, NumbersOf(e), body, rules);
  }

  /** An encoded entry parses back to itself, whatever follows. */
  lemma EntryRoundTrip(e: InstalledApp, tail: Bytes, rules: P.Rules)
    requires ValidEntry(e, rules)
    ensures ParseEntry(EncodeEntry(e) + tail, rules) == Ok((e, tail))
  {
    var body := Join(TextsOf(e)) + tail;
    assert EncodeEntry(e) + tail == Pack(NumbersOf(e), ENTRY_HEADER) + body;
    EntryLength(e);
    EntryWidth();
    EncodedNumbers(e, body, rules);
    TextsRoundTrip(e, tail, rules);
  }

  lemma ParsedTextsAreEncoded(v: seq<nat>, body: Bytes, rules: P.Rules)
    requires |v| == 9 && NumbersError(v).None? && ParseTexts(v, body, rules).Ok?
    ensures
      var (e, tail) := ParseTexts(v, body, rules).value;
      ValidEntry(e, rules) && v == NumbersOf(e) && body == Join(TextsOf(e)) + tail
  {
    var lengths := TextLengths(v);
    SliceLengths(body, lengths);
    JoinSlice(body, lengths);
    var t := Slice(body, lengths).0;
    assert forall i :: 0 <= i < 6 ==> Lengths(t)[i] == |t[i]| == lengths[i];
    assert TextsOf(EntryOf(v, t)) == t;
  }

  /** Whatever parses as an entry is that entry's encoding. */
  lemma ParsedEntryIsEncoded(rest: Bytes, rules: P.Rules)
    requires ParseEntry(rest, rules).Ok?
    ensures ValidEntry(ParseEntry(rest, rules).value.0, rules)
    ensures rest == EncodeEntry(ParseEntry(rest, rules).value.0) + ParseEntry(rest, rules).value.1
  {
    EntryWidth();
    var v, body := Unpack(rest[..ENTRY_NUMBERS], ENTRY_HEADER), rest[ENTRY_NUMBERS..];
    PackUnpack(rest[..ENTRY_NUMBERS], ENTRY_HEADER);
    ParsedTextsAreEncoded(v, body, rules);
    P.BehindPrefix(rest, ENTRY_NUMBERS);
    var (e, tail) := ParseTexts(v, body, rules).value;
    P.Regroup(rest[..ENTRY_NUMBERS], Join(TextsOf(e)), tail);
  }

  function MayFollow(rules: P.Rules): (seq<InstalledApp>, InstalledApp) -> bool
  {
    (sofar: seq<InstalledApp>, e: InstalledApp) => ValidEntry(e, rules) && InOrder(sofar, e) && NewFilename(sofar, e)
  }

  lemma EntriesAreFaithful(rules: P.Rules)
    ensures Faithful(NextEntry(rules), EncodeEntry, MayFollow(rules))
  {
    forall sofar, e, tail | MayFollow(rules)(sofar, e)
      ensures NextEntry(rules)(sofar, EncodeEntry(e) + tail) == Ok((e, tail))
    {
      NextRoundTrip(sofar, e, tail, rules);
    }
    forall sofar, rest | NextEntry(rules)(sofar, rest).Ok?
      ensures MayFollow(rules)(sofar, NextEntry(rules)(sofar, rest).value.0)
      ensures rest == EncodeEntry(NextEntry(rules)(sofar, rest).value.0) + NextEntry(rules)(sofar, rest).value.1
    {
      NextIsEncoded(sofar, rest, rules);
    }
  }

  lemma NextRoundTrip(sofar: seq<InstalledApp>, e: InstalledApp, tail: Bytes, rules: P.Rules)
    requires MayFollow(rules)(sofar, e)
    ensures NextEntry(rules)(sofar, EncodeEntry(e) + tail) == Ok((e, tail))
  {
    EntryRoundTrip(e, tail, rules);
  }

  lemma NextIsEncoded(sofar: seq<InstalledApp>, rest: Bytes, rules: P.Rules)
    requires NextEntry(rules)(sofar, rest).Ok?
    ensures MayFollow(rules)(sofar, NextEntry(rules)(sofar, rest).value.0)
    ensures rest == EncodeEntry(NextEntry(rules)(sofar, rest).value.0) + NextEntry(rules)(sofar, rest).value.1
  {
    ParsedEntryIsEncoded(rest, rules);
  }

  /** Two valid entries with the same filename are for the same application. */
  lemma SameFilenameSameApp(a: InstalledApp, b: InstalledApp, rules: P.Rules)
    requires ValidEntry(a, rules) && ValidEntry(b, rules) && a.filename == b.filename
    ensures a.appId == b.appId
  {
    FilenameIsInjective(a.appId, a.digest, a.format, b.appId, b.digest, b.format);
  }

  /** Checking each entry against the last one amounts to the whole list being ascending;
      the duplicate-filename check adds nothing. */
  lemma AscendingIsChain(entries: seq<InstalledApp>, rules: P.Rules, k: nat)
    requires Ascending(entries) && (forall i :: 0 <= i < |entries| ==> ValidEntry(entries[i], rules)) && k < |entries|
    ensures MayFollow(rules)(entries[..k], entries[k])
  {
    forall i | 0 <= i < k ensures entries[i].filename != entries[k].filename {
      if entries[i].filename == entries[k].filename {
        SameFilenameSameApp(entries[i], entries[k], rules);
        LessIsStrict(entries[k].appId);
      }
    }
  }

  lemma ChainNext(entries: seq<InstalledApp>, rules: P.Rules, j: nat)
    requires 0 < j < |entries| && Chain(MayFollow(rules), entries, 0)
    ensures Less(entries[j - 1].appId, entries[j].appId)
  {
    assert MayFollow(rules)(entries[..j], entries[j]);
  }

  /** In order next to each other means in order throughout. */
  lemma {:induction false} StepsAscend(entries: seq<InstalledApp>, i: nat, j: nat)
    requires i < j < |entries| && forall k: nat :: 0 < k < |entries| ==> Steps(entries, k)
    ensures Less(entries[i].appId, entries[j].appId)
    decreases j - i
  {
    assert Steps(entries, j);
    if i < j - 1 {
      StepsAscend(entries, i, j - 1);
      LessIsTransitive(entries[i].appId, entries[j - 1].appId, entries[j].appId);
    }
  }

  predicate Steps(entries: seq<InstalledApp>, k: nat)
    requires 0 < k < |entries|
  {
    Less(entries[k - 1].appId, entries[k].appId)
  }

  lemma ChainIsAscending(entries: seq<InstalledApp>, rules: P.Rules, i: nat, j: nat)
    requires i < j < |entries| && Chain(MayFollow(rules), entries, 0)
    ensures Less(entries[i].appId, entries[j].appId)
  {
    forall k: nat | 0 < k < |entries| ensures Steps(entries, k) { ChainNext(entries, rules, k); }
    StepsAscend(entries, i, j);
  }

  lemma ValidIsChain(entries: seq<InstalledApp>, rules: P.Rules)
    requires ValidRegistry(entries, rules)
    ensures Chain(MayFollow(rules), entries, 0)
  {
    forall k | 0 <= k < |entries|
      ensures MayFollow(rules)(entries[..k], entries[k])
    {
      AscendingIsChain(entries, rules, k);
    }
  }

  lemma EntriesRoundTrip(entries: seq<InstalledApp>, rules: P.Rules)
    requires ValidRegistry(entries, rules)
    ensures ParseEntries(EncodeMany(EncodeEntry, entries), |entries|, rules) == Ok(entries)
  {
    ValidIsChain(entries, rules);
    EntriesAreFaithful(rules);
    AllRoundTrip(NextEntry(rules), EncodeEntry, MayFollow(rules), entries, []);
    assert EncodeMany(EncodeEntry, entries) + [] == EncodeMany(EncodeEntry, entries);
  }

  lemma ParsedEntriesAreEncoded(rest: Bytes, n: nat, rules: P.Rules)
    requires ParseEntries(rest, n, rules).Ok? && n <= MAX_INSTALLED_APPS
    ensures
      var entries := ParseEntries(rest, n, rules).value;
      ValidRegistry(entries, rules) && |entries| == n && rest == EncodeMany(EncodeEntry, entries)
  {
    EntriesAreFaithful(rules);
    ManyParsed(NextEntry(rules), EncodeEntry, MayFollow(rules), [], rest, n);
    var entries := ParseEntries(rest, n, rules).value;
    assert entries[0..] == entries && EncodeMany(EncodeEntry, entries) + [] == EncodeMany(EncodeEntry, entries);
    forall i, j | 0 <= i < j < n
      ensures Less(entries[i].appId, entries[j].appId)
    {
      ChainIsAscending(entries, rules, i, j);
    }
    forall i | 0 <= i < n ensures ValidEntry(entries[i], rules) { assert MayFollow(rules)(entries[..i], entries[i]); }
  }

  lemma {:induction false} EntriesSize(entries: seq<InstalledApp>, rules: P.Rules)
    requires forall i :: 0 <= i < |entries| ==> ValidEntry(entries[i], rules)
    ensures |EncodeMany(EncodeEntry, entries)| <= |entries| * 730
  {
    if entries != [] {
      EntriesSize(entries[1..], rules);
      EntryLength(entries[0]);
    }
  }

  /** A valid registry always fits its snapshot limit. */
  lemma EncodedFits(entries: seq<InstalledApp>, rules: P.Rules)
    requires ValidRegistry(entries, rules)
    ensures |Encode(entries)| <= MAX_REGISTRY_LEN
  {
    P.FourWide(4, 2, 2, 4);
    EntriesSize(entries, rules);
  }

  /** A valid registry parses back from its snapshot. */
  lemma ParseEncoded(entries: seq<InstalledApp>, rules: P.Rules)
    requires ValidRegistry(entries, rules)
    ensures Parse(Encode(entries), rules) == Ok(entries)
  {
    HeaderRoundTrip(|entries|, EncodeMany(EncodeEntry, entries));
    EncodedFits(entries, rules);
    EntriesRoundTrip(entries, rules);
  }

  lemma HeaderRoundTrip(n: nat, rest: Bytes)
    requires n <= MAX_INSTALLED_APPS
    ensures
      var bytes := Pack([MAGIC, VERSION, 0, n], HEADER) + rest;
      && Width(HEADER) == HEADER_SIZE <= |bytes| && bytes[HEADER_SIZE..] == rest
      && Unpack(bytes[..HEADER_SIZE], HEADER) == [MAGIC, VERSION, 0, n]
  {
    var v := [MAGIC, VERSION, 0, n];
    P.FourWide(4, 2, 2, 4);
    assert Pow256(2) == 0x1_0000;
    assert Pow256(4) == 0x1_0000_0000;
    UnpackPack(v, HEADER);
    assert (Pack(v, HEADER) + rest)[..HEADER_SIZE] == Pack(v, HEADER);
  }

  /** Every accepted snapshot is the encoding of the one valid registry it parses to. */
  lemma ParsedIsEncoded(bytes: Bytes, rules: P.Rules)
    requires Parse(bytes, rules).Ok?
    ensures ValidRegistry(Parse(bytes, rules).value, rules) && Encode(Parse(bytes, rules).value) == bytes
  {
    var n := ParsedHeader(bytes, rules);
    ParsedEntriesAreEncoded(bytes[HEADER_SIZE..], n, rules);
    P.BehindPrefix(bytes, HEADER_SIZE);
  }

  lemma ParsedHeader(bytes: Bytes, rules: P.Rules) returns (n: nat)
    requires Parse(bytes, rules).Ok?
    ensures n <= MAX_INSTALLED_APPS && HEADER_SIZE <= |bytes|
    ensures Pack([MAGIC, VERSION, 0, n], HEADER) == bytes[..HEADER_SIZE]
    ensures Parse(bytes, rules) == ParseEntries(bytes[HEADER_SIZE..], n, rules)
  {
    P.FourWide(4, 2, 2, 4);
    var v := Unpack(bytes[..HEADER_SIZE], HEADER);
    PackUnpack(bytes[..HEADER_SIZE], HEADER);
    n := v[3];
    assert v == [MAGIC, VERSION, 0, n];
  }

  lemma AppendKeepsAscending(entries: seq<InstalledApp>, e: InstalledApp)
    requires Ascending(entries) && InOrder(entries, e)
    ensures Ascending(entries + [e])
  {
    var all, n := entries + [e], |entries|;
    forall i | 0 <= i < n ensures Less(all[i].appId, e.appId) {
      if i < n - 1 { LessIsTransitive(entries[i].appId, entries[n - 1].appId, e.appId); }
    }
  }

  function AllValid(rules: P.Rules): seq<InstalledApp> -> bool
  {
    (entries: seq<InstalledApp>) =>
      Ascending(entries) && forall i :: 0 <= i < |entries| ==> ValidEntry(entries[i], rules)
  }

  lemma OrderedIsNew(sofar: seq<InstalledApp>, e: InstalledApp, rules: P.Rules)
    requires AllValid(rules)(sofar) && ValidEntry(e, rules) && InOrder(sofar, e)
    ensures NewFilename(sofar, e) && AllValid(rules)(sofar + [e])
  {
    var all := sofar + [e];
    AppendKeepsAscending(sofar, e);
    AscendingIsChain(all, rules, |sofar|);
    assert all[..|sofar|] == sofar;
  }

  lemma AdmitNeverDuplicates(
    sofar: seq<InstalledApp>, next: Result<(InstalledApp, Bytes), RegistryError>, rules: P.Rules)
    requires AllValid(rules)(sofar) && next != Err(DuplicateGenerationFilename)
    requires (next.Ok? ==> ValidEntry(next.value.0, rules))
    ensures Admit(sofar, next) != Err(DuplicateGenerationFilename)
    ensures Admit(sofar, next).Ok? ==> AllValid(rules)(sofar + [Admit(sofar, next).value.0])
  {
    if next.Ok? && InOrder(sofar, next.value.0) { OrderedIsNew(sofar, next.value.0, rules); }
  }

  lemma NextNeverDuplicates(sofar: seq<InstalledApp>, rest: Bytes, rules: P.Rules)
    requires AllValid(rules)(sofar)
    ensures NextEntry(rules)(sofar, rest) != Err(DuplicateGenerationFilename)
    ensures NextEntry(rules)(sofar, rest).Ok? ==> AllValid(rules)(sofar + [NextEntry(rules)(sofar, rest).value.0])
  {
    EntryErrors(rest, rules);
    AdmitNeverDuplicates(sofar, ParseEntry(rest, rules), rules);
  }

  lemma EntryErrors(rest: Bytes, rules: P.Rules)
    ensures ParseEntry(rest, rules) != Err(DuplicateGenerationFilename)
    ensures ParseEntry(rest, rules).Ok? ==> ValidEntry(ParseEntry(rest, rules).value.0, rules)
  {
    if ParseEntry(rest, rules).Ok? { ParsedEntryIsEncoded(rest, rules); }
  }

  /** Because filenames name their applications, no snapshot is refused for a duplicate one. */
  lemma DuplicateFilenameUnreachable(bytes: Bytes, rules: P.Rules)
    ensures Parse(bytes, rules) != Err(DuplicateGenerationFilename)
  {
    if HEADER_SIZE <= |bytes| <= MAX_REGISTRY_LEN {
      P.FourWide(4, 2, 2, 4);
      var v := Unpack(bytes[..HEADER_SIZE], HEADER);
      forall sofar, rest | AllValid(rules)(sofar)
        ensures NextEntry(rules)(sofar, rest) != Err(DuplicateGenerationFilename)
        ensures NextEntry(rules)(sofar, rest).Ok? ==> AllValid(rules)(sofar + [NextEntry(rules)(sofar, rest).value.0])
      {
        NextNeverDuplicates(sofar, rest, rules);
      }
      ManyAvoids(NextEntry(rules), AllValid(rules), DuplicateGenerationFilename, [], bytes[HEADER_SIZE..], v[3]);
    }
  }
}
