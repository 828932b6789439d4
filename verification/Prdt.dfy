/** Physical region descriptor tables (section 4.2.3.3 of AHCI 1.3.1) and command FISes. */
module Prdt {
  import opened Objects
  import opened LittleEndian

  const MAX_PRDT_ENTRIES: nat := 32
  const PRDT_MAX_BYTES: nat := 4 * 1024 * 1024
  const U64_SPAN: nat := 0x1_0000_0000_0000_0000
  const DMA_32BIT_ADDRESS_LIMIT: nat := 0x1_0000_0000
  const MAX_ATA_SECTORS: nat := 65536

  /** A run of physical bytes: a DMA segment, or one descriptor of the table. */
  datatype Region = Region(address: nat, length: nat)

  datatype PrdtError = BadRequest | AddressOverflow | UnsupportedDmaAddress | TooManyEntries

  function Least(a: nat, b: nat): nat { if a <= b then a else b }

  /** The byte addresses of a list of regions, in order. */
  ghost function Addresses(regions: seq<Region>): seq<nat>
  {
    if regions == [] then [] else Range(regions[0]) + Addresses(regions[1..])
  }

  ghost function Range(r: Region): seq<nat>
  {
    seq(r.length, i requires 0 <= i < r.length => r.address + i)
  }

  function Bytes(regions: seq<Region>): nat
  {
    if regions == [] then 0 else regions[0].length + Bytes(regions[1..])
  }

  /** The descriptors of one segment: full ones, then what is left. */
  function Split(address: nat, length: nat): seq<Region>
    decreases length
  {
    if length == 0 then []
    else
      var n := Least(length, PRDT_MAX_BYTES);
      [Region(address, n)] + Split(address + n, length - n)
  }

  function Plan(segments: seq<Region>): seq<Region>
  {
    if segments == [] then []
    else Split(segments[0].address, segments[0].length) + Plan(segments[1..])
  }

  predicate SegmentOk(segment: Region, supports64: bool)
  {
    && segment.length > 0
    && segment.address + segment.length < U64_SPAN
    && (!supports64 ==> segment.address + segment.length <= DMA_32BIT_ADDRESS_LIMIT)
  }

  predicate AllSegmentsOk(segments: seq<Region>, supports64: bool)
  {
    forall i :: 0 <= i < |segments| ==> SegmentOk(segments[i], supports64)
  }

  /** Every segment is non-empty and addressable, at most 32 descriptors are needed, and
      the lengths add up to the transfer. */
  predicate Acceptable(segments: seq<Region>, byteLen: nat, supports64: bool, maxSegments: nat)
  {
    if byteLen == 0 then segments == []
    else
      && 0 < |segments| <= maxSegments
      && AllSegmentsOk(segments, supports64)
      && |Plan(segments)| <= MAX_PRDT_ENTRIES
      && Bytes(segments) == byteLen
  }

  // ------------------------------------------------------- what a plan means

  lemma {:induction false} ConcatRegions(a: seq<Region>, b: seq<Region>)
    ensures Addresses(a + b) == Addresses(a) + Addresses(b) && Bytes(a + b) == Bytes(a) + Bytes(b)
  {
    if a == [] {
      assert a + b == b;
    } else {
      assert (a + b)[1..] == a[1..] + b;
      ConcatRegions(a[1..], b);
    }
  }

  lemma RangeSplits(address: nat, length: nat, n: nat)
    requires n <= length
    ensures Range(Region(address, length)) == Range(Region(address, n)) + Range(Region(address + n, length - n))
  {
  }

  lemma {:induction false} SplitTiles(address: nat, length: nat)
    ensures Addresses(Split(address, length)) == Range(Region(address, length))
    ensures Bytes(Split(address, length)) == length
    decreases length
  {
    if length > 0 {
      var n := Least(length, PRDT_MAX_BYTES);
      var rest := Split(address + n, length - n);
      SplitTiles(address + n, length - n);
      assert Split(address, length)[1..] == rest;
      RangeSplits(address, length, n);
      assert Addresses(Split(address, length)) == Range(Region(address, n)) + Addresses(rest);
    }
  }

  lemma {:induction false} SplitSizes(address: nat, length: nat, d: Region)
    requires d in Split(address, length)
    ensures 1 <= d.length <= PRDT_MAX_BYTES && address <= d.address && d.address + d.length <= address + length
    decreases length
  {
    var n := Least(length, PRDT_MAX_BYTES);
    if d != Region(address, n) { SplitSizes(address + n, length - n, d); }
  }

  /** The descriptors name exactly the requested bytes, in the same order. */
  lemma {:induction false} PlanTiles(segments: seq<Region>)
    ensures Addresses(Plan(segments)) == Addresses(segments) && Bytes(Plan(segments)) == Bytes(segments)
  {
    if segments != [] {
      PlanTiles(segments[1..]);
      SplitTiles(segments[0].address, segments[0].length);
      ConcatRegions(Split(segments[0].address, segments[0].length), Plan(segments[1..]));
    }
  }

  /** Each descriptor holds 1 byte to 4 MiB and stays where its segment was allowed to be. */
  lemma {:induction false} PlanSizes(segments: seq<Region>, supports64: bool, d: Region)
    requires d in Plan(segments) && AllSegmentsOk(segments, supports64)
    ensures 1 <= d.length <= PRDT_MAX_BYTES && SegmentOk(d, supports64)
    decreases |segments|
  {
    assert SegmentOk(segments[0], supports64);
    if d in Split(segments[0].address, segments[0].length) {
      SplitSizes(segments[0].address, segments[0].length, d);
    } else {
      PlanSizes(segments[1..], supports64, d);
    }
  }

  lemma {:induction false} PlanSnoc(segments: seq<Region>, last: Region)
    ensures Plan(segments + [last]) == Plan(segments) + Split(last.address, last.length)
  {
    if segments == [] {
      assert [last][1..] == [];
    } else {
      assert (segments + [last])[1..] == segments[1..] + [last];
      PlanSnoc(segments[1..], last);
    }
  }

  /** What one more segment adds, and that a prefix never needs more than the whole. */
  lemma {:induction false} PlanStep(segments: seq<Region>, n: nat)
    requires n < |segments|
    ensures Plan(segments[..n + 1]) == Plan(segments[..n]) + Split(segments[n].address, segments[n].length)
    ensures Bytes(segments[..n + 1]) == Bytes(segments[..n]) + segments[n].length
    ensures |Plan(segments[..n + 1])| <= |Plan(segments)|
    decreases |segments| - n
  {
    assert segments[..n + 1] == segments[..n] + [segments[n]];
    PlanSnoc(segments[..n], segments[n]);
    ConcatRegions(segments[..n], [segments[n]]);
    if n + 1 == |segments| {
      assert segments[..n + 1] == segments;
    } else {
      PlanStep(segments, n + 1);
    }
  }

  // --------------------------------------------------------------- building

  /** What the code checks of one segment before splitting it. */
  function RangeError(segment: Region, supports64: bool): Option<PrdtError>
  {
    if segment.length == 0 then Some(BadRequest)
    else if segment.address + segment.length - 1 >= U64_SPAN then Some(AddressOverflow)
    else if !supports64 && segment.address + segment.length - 1 >= DMA_32BIT_ADDRESS_LIMIT then
      Some(UnsupportedDmaAddress)
    else None
  }

  /** Why a segment is refused when `start` descriptors are already in use. */
  function SegmentError(segment: Region, supports64: bool, start: nat): Option<PrdtError>
  {
    if RangeError(segment, supports64).Some? then RangeError(segment, supports64)
    else if start + |Split(segment.address, segment.length)| > MAX_PRDT_ENTRIES then Some(TooManyEntries)
    else if segment.address + segment.length >= U64_SPAN then Some(AddressOverflow)
    else None
  }

  /** Segment `i` is the first one refused, for this reason. */
  predicate FirstRefused(segments: seq<Region>, supports64: bool, i: nat, error: PrdtError)
  {
    && i < |segments|
    && SegmentError(segments[i], supports64, |Plan(segments[..i])|) == Some(error)
    && forall k :: 0 <= k < i ==> SegmentError(segments[k], supports64, |Plan(segments[..k])|).None?
  }

  /** The first reason met from segment `i` on. */
  function SegmentsError(segments: seq<Region>, supports64: bool, i: nat): Option<PrdtError>
    requires i <= |segments|
    decreases |segments| - i
  {
    if i == |segments| then None
    else
      var error := SegmentError(segments[i], supports64, |Plan(segments[..i])|);
      if error.Some? then error else SegmentsError(segments, supports64, i + 1)
  }

  /** That is the first refused segment's reason, and there is none exactly when no segment
      is refused. */
  lemma {:induction false} SegmentsErrorIsFirst(segments: seq<Region>, supports64: bool, i: nat)
    requires i <= |segments|
    requires forall k :: 0 <= k < i ==> SegmentError(segments[k], supports64, |Plan(segments[..k])|).None?
    ensures SegmentsError(segments, supports64, i).Some? ==>
      exists k :: FirstRefused(segments, supports64, k, SegmentsError(segments, supports64, i).value)
    ensures SegmentsError(segments, supports64, i).None? ==>
      forall k :: 0 <= k < |segments| ==> SegmentError(segments[k], supports64, |Plan(segments[..k])|).None?
    decreases |segments| - i
  {
    if i < |segments| {
      if SegmentError(segments[i], supports64, |Plan(segments[..i])|).Some? {
        assert FirstRefused(segments, supports64, i, SegmentsError(segments, supports64, i).value);
      } else {
        SegmentsErrorIsFirst(segments, supports64, i + 1);
      }
    }
  }

  /** Why a request is refused, in the order of the checks. */
  function PlanError(segments: seq<Region>, byteLen: nat, supports64: bool, maxSegments: nat): Option<PrdtError>
  {
    if byteLen == 0 then if segments == [] then None else Some(BadRequest)
    else if segments == [] || |segments| > maxSegments then Some(BadRequest)
    else if SegmentsError(segments, supports64, 0).Some? then SegmentsError(segments, supports64, 0)
    else if Bytes(segments) != byteLen then Some(BadRequest)
    else None
  }

  lemma {:induction false} SegmentsErrorIsExact(segments: seq<Region>, supports64: bool, i: nat)
    requires i <= |segments| && |Plan(segments[..i])| <= MAX_PRDT_ENTRIES
    ensures SegmentsError(segments, supports64, i).None? <==>
      |Plan(segments)| <= MAX_PRDT_ENTRIES && forall k :: i <= k < |segments| ==> SegmentOk(segments[k], supports64)
    decreases |segments| - i
  {
    if i == |segments| {
      assert segments[..i] == segments;
    } else {
      PlanStep(segments, i);
      if SegmentError(segments[i], supports64, |Plan(segments[..i])|).None? {
        SegmentsErrorIsExact(segments, supports64, i + 1);
      }
    }
  }

  /** A request is refused exactly when it is not acceptable. */
  lemma PlanErrorIsExact(segments: seq<Region>, byteLen: nat, supports64: bool, maxSegments: nat)
    ensures PlanError(segments, byteLen, supports64, maxSegments).None? <==>
      Acceptable(segments, byteLen, supports64, maxSegments)
  {
    assert Plan(segments[..0]) == [];
    SegmentsErrorIsExact(segments, supports64, 0);
  }

  /** Fills in the descriptors of one segment from index `start` on. */
  method SplitSegment(entries: array<Region>, start: nat, segment: Region, ghost supports64: bool)
    returns (r: Result<nat, PrdtError>)
    requires entries.Length == MAX_PRDT_ENTRIES && start <= MAX_PRDT_ENTRIES && RangeError(segment, supports64).None?
    modifies entries
    ensures r.Err? ==> SegmentError(segment, supports64, start) == Some(r.error)
    ensures r.Ok? <==> segment.address + segment.length < U64_SPAN
                       && start + |Split(segment.address, segment.length)| <= MAX_PRDT_ENTRIES
    ensures r.Ok? ==> r.value <= MAX_PRDT_ENTRIES
    ensures r.Ok? ==> entries[..r.value] == old(entries[..start]) + Split(segment.address, segment.length)
  {
    var address, count, remaining: nat := segment.address, start, segment.length;
    while remaining != 0
      invariant remaining <= segment.length && address + remaining == segment.address + segment.length
      invariant start <= count <= MAX_PRDT_ENTRIES && (remaining == 0 ==> address < U64_SPAN)
      invariant entries[..count] + Split(address, remaining) ==
        old(entries[..start]) + Split(segment.address, segment.length)
    {
      if count == MAX_PRDT_ENTRIES {
        assert |entries[..count] + Split(address, remaining)| > MAX_PRDT_ENTRIES;
        return Err(TooManyEntries);
      }
      var length := Least(remaining, PRDT_MAX_BYTES);
      if address + length >= U64_SPAN {
        assert length == remaining;
        assert Split(address, remaining) == [Region(address, remaining)];
        return Err(AddressOverflow);
      }
      entries[count] := Region(address, length);
      count := count + 1;
      remaining := remaining - length;
      address := address + length;
    }
    return Ok(count);
  }

  /** Checks one segment and fills in its descriptors. */
  method AddSegment(entries: array<Region>, start: nat, segment: Region, supports64: bool)
    returns (r: Result<nat, PrdtError>)
    requires entries.Length == MAX_PRDT_ENTRIES && start <= MAX_PRDT_ENTRIES
    modifies entries
    ensures SegmentError(segment, supports64, start) == if r.Ok? then None else Some(r.error)
    ensures r.Ok? <==> SegmentOk(segment, supports64)
                       && start + |Split(segment.address, segment.length)| <= MAX_PRDT_ENTRIES
    ensures r.Ok? ==> r.value <= MAX_PRDT_ENTRIES
    ensures r.Ok? ==> entries[..r.value] == old(entries[..start]) + Split(segment.address, segment.length)
  {
    var bad := RangeError(segment, supports64);
    if bad.Some? { return Err(bad.value); }
    r := SplitSegment(entries, start, segment, supports64);
  }

  /** Fills in the descriptors of all segments in order. */
  method AddSegments(entries: array<Region>, segments: seq<Region>, supports64: bool)
    returns (r: Result<nat, PrdtError>, total: nat)
    requires entries.Length == MAX_PRDT_ENTRIES
    modifies entries
    ensures r.Ok? <==> |Plan(segments)| <= MAX_PRDT_ENTRIES && AllSegmentsOk(segments, supports64)
    ensures r.Ok? ==> r.value <= MAX_PRDT_ENTRIES && entries[..r.value] == Plan(segments)
    ensures r.Ok? ==> total == Bytes(segments)
    ensures SegmentsError(segments, supports64, 0) == if r.Ok? then None else Some(r.error)
  {
    var count: nat := 0;
    total := 0;
    for i := 0 to |segments|
      invariant count <= MAX_PRDT_ENTRIES && entries[..count] == Plan(segments[..i])
      invariant AllSegmentsOk(segments[..i], supports64) && total == Bytes(segments[..i])
      invariant SegmentsError(segments, supports64, 0) == SegmentsError(segments, supports64, i)
    {
      PlanStep(segments, i);
      r := AddSegment(entries, count, segments[i], supports64);
      if r.Err? { return; }
      total := total + segments[i].length;
      count := r.value;
    }
    assert segments[..|segments|] == segments;
    r := Ok(count);
  }

  /** Builds the table, accepting exactly the acceptable requests. */
  method BuildPrdt(segments: seq<Region>, byteLen: nat, supports64: bool, maxSegments: nat)
    returns (r: Result<seq<Region>, PrdtError>)
    ensures r.Ok? <==> Acceptable(segments, byteLen, supports64, maxSegments)
    ensures r.Ok? ==> r.value == Plan(segments)
    ensures PlanError(segments, byteLen, supports64, maxSegments) == if r.Ok? then None else Some(r.error)
  {
    if byteLen == 0 {
      if segments == [] { return Ok([]); }
      return Err(BadRequest);
    }
    if segments == [] || |segments| > maxSegments { return Err(BadRequest); }
    var entries := new Region[MAX_PRDT_ENTRIES](_ => Region(0, 0));
    var filled, total := AddSegments(entries, segments, supports64);
    if filled.Err? { return Err(filled.error); }
    if total != byteLen { return Err(BadRequest); }
    return Ok(entries[..filled.value]);
  }

  // -------------------------------------------------------------------- FIS

  function SectorField(sectors: nat): nat
    requires sectors <= MAX_ATA_SECTORS
  {
    if sectors == MAX_ATA_SECTORS then 0 else sectors
  }

  const FIS_TYPE_REG_H2D: u8 := 0x27
  const FIS_COMMAND: u8 := 0x80
  const LBA_MODE: u8 := 0x40
  const ATA_READ_FPDMA_QUEUED: u8 := 0x60
  const ATA_WRITE_FPDMA_QUEUED: u8 := 0x61

  /** The queued read/write FIS: the count goes in the features bytes, the tag in bits 3..7
      of the count byte. */
  function NcqFis(command: u8, lba: nat, sectors: nat, tag: nat): Option<seq<u8>>
  {
    if command != ATA_READ_FPDMA_QUEUED && command != ATA_WRITE_FPDMA_QUEUED then None
    else if tag >= 32 || sectors > MAX_ATA_SECTORS then None
    else
      var count := SectorField(sectors);
      Some([FIS_TYPE_REG_H2D, FIS_COMMAND, command, ByteAt(count, 0),
            ByteAt(lba, 0), ByteAt(lba, 1), ByteAt(lba, 2), LBA_MODE,
            ByteAt(lba, 3), ByteAt(lba, 4), ByteAt(lba, 5), ByteAt(count, 1),
            tag * 8, 0, 0, 0, 0, 0, 0, 0])
  }

  /** How a device reads the FIS back (a count of zero means 65536 sectors). */
  function FisLba(fis: seq<u8>): nat
    requires |fis| == 20
  {
    FromBytes(fis[4..7] + fis[8..11])
  }

  function FisSectors(fis: seq<u8>): nat
    requires |fis| == 20
  {
    var count := FromBytes([fis[3], fis[11]]);
    if count == 0 then MAX_ATA_SECTORS else count
  }

  function FisTag(fis: seq<u8>): nat
    requires |fis| == 20
  {
    fis[12] / 8
  }

  /** The device sees the same LBA, sector count 1..65536 and tag that were asked for. */
  lemma NcqFisRoundTrips(command: u8, lba: nat, sectors: nat, tag: nat)
    requires NcqFis(command, lba, sectors, tag).Some? && lba < 0x1_0000_0000_0000 && 1 <= sectors
    ensures |NcqFis(command, lba, sectors, tag).value| == 20
    ensures FisLba(NcqFis(command, lba, sectors, tag).value) == lba
    ensures FisSectors(NcqFis(command, lba, sectors, tag).value) == sectors
    ensures FisTag(NcqFis(command, lba, sectors, tag).value) == tag
  {
    var fis := NcqFis(command, lba, sectors, tag).value;
    assert Pow256(6) == 0x1_0000_0000_0000 by { assert Pow256(3) == 0x100_0000; }
    assert Pow256(2) == 0x1_0000;
    assert fis[4..7] + fis[8..11] == [fis[4], fis[5], fis[6], fis[8], fis[9], fis[10]];
    BytesRoundTrip(lba, 6, fis[4..7] + fis[8..11]);
    BytesRoundTrip(SectorField(sectors), 2, [fis[3], fis[11]]);
  }
}
