/** The items of a report descriptor: what its bytes spell, and reading them in turn. */
module HidItems {
  import opened HidLayout
  import opened HidParser
  import opened LittleEndian
  import opened Objects

  /** The items from a position on, and whether the last of them is whole. */
  function ReadItems(descriptor: seq<u8>, cursor: nat): (seq<Item>, bool)
    decreases |descriptor| - cursor
  {
    if cursor >= |descriptor| then ([], true)
    else
      var next := NextItem(descriptor, cursor);
      if next.Err? then ([], false)
      else
        var rest := ReadItems(descriptor, next.value.1);
        if next.value.0.Some? then ([next.value.0.value] + rest.0, rest.1) else rest
  }

  /** Items applied in turn. */
  function Apply(p: Progress, items: seq<Item>): Result<Progress, DescriptorError>
    decreases |items|
  {
    if items == [] then Ok(p)
    else
      var after := AfterItem(p, items[0]);
      if after.Err? then after else Apply(after.value, items[1..])
  }

  lemma {:induction false} InterpretAppliesItems(p: Progress, descriptor: seq<u8>, cursor: nat)
    ensures
      var read := ReadItems(descriptor, cursor);
      var r := Apply(p, read.0);
      Interpret(p, descriptor, cursor) == if r.Err? || read.1 then r else Err(TruncatedItem)
    decreases |descriptor| - cursor
  {
    if cursor < |descriptor| && NextItem(descriptor, cursor).Ok? {
      var next := NextItem(descriptor, cursor).value;
      if next.0.None? {
        InterpretAppliesItems(p, descriptor, next.1);
      } else {
        assert ReadItems(descriptor, cursor).0[1..] == ReadItems(descriptor, next.1).0;
        var after := AfterItem(p, next.0.value);
        if after.Ok? { InterpretAppliesItems(after.value, descriptor, next.1); }
      }
    }
  }

  type Refusals = nat -> Option<DescriptorError>

  type Holding = (nat, Progress) -> bool

  /** While `ok` holds of the progress, the refusals say which item is refused, and how;
      every other item keeps `ok`. */
  ghost predicate Decides(items: seq<Item>, ok: Holding, refusals: Refusals)
  {
    forall n: nat, p :: n < |items| && ok(n, p) ==> DecidesAt(items, n, p, ok, refusals(n))
  }

  ghost predicate DecidesAt(items: seq<Item>, n: nat, p: Progress, ok: Holding, refusal: Option<DescriptorError>)
    requires n < |items|
  {
    var after := AfterItem(p, items[n]);
    if refusal.Some? then after == Err(refusal.value) else after.Ok? && ok(n + 1, after.value)
  }

  /** The first refused item from `n` on. */
  ghost predicate FirstRefused(refusals: Refusals, n: nat, end: nat, k: nat)
  {
    n <= k < end && refusals(k).Some? && forall j: nat :: n <= j < k ==> refusals(j).None?
  }

  /** How applying the items from `n` on ends. */
  ghost predicate EndsAs(end: nat, n: nat, ok: Holding, refusals: Refusals, r: Result<Progress, DescriptorError>)
  {
    if r.Ok? then ok(end, r.value) && forall k: nat :: n <= k < end ==> refusals(k).None?
    else exists k: nat :: FirstRefused(refusals, n, end, k) && refusals(k) == Some(r.error)
  }

  lemma {:induction false} ApplyDecides(items: seq<Item>, n: nat, p: Progress, ok: Holding, refusals: Refusals)
    requires Decides(items, ok, refusals) && n <= |items| && ok(n, p)
    ensures EndsAs(|items|, n, ok, refusals, Apply(p, items[n..]))
    decreases |items| - n
  {
    if n < |items| {
      assert DecidesAt(items, n, p, ok, refusals(n));
      assert items[n..][1..] == items[n + 1..];
      if refusals(n).Some? {
        assert FirstRefused(refusals, n, |items|, n);
      } else {
        var after := AfterItem(p, items[n]).value;
        ApplyDecides(items, n + 1, after, ok, refusals);
        EndsOnward(|items|, n, ok, refusals, Apply(after, items[n + 1..]));
      }
    }
  }

  lemma EndsOnward(end: nat, n: nat, ok: Holding, refusals: Refusals, r: Result<Progress, DescriptorError>)
    requires n < end && refusals(n).None? && EndsAs(end, n + 1, ok, refusals, r)
    ensures EndsAs(end, n, ok, refusals, r)
  {
    if r.Err? {
      var k: nat :| FirstRefused(refusals, n + 1, end, k) && refusals(k) == Some(r.error);
      assert FirstRefused(refusals, n, end, k);
    }
  }

  // --------------------------------------------------------- writing items down

  /** An item, or a long item, which says nothing (sections 6.2.2.2 and 6.2.2.3 of the
      USB Device Class Definition for HID 1.11). */
  datatype Entry = Short(item: Item) | Long(tag: u8, data: seq<u8>)

  /** The prefix 0xFE announces a long item. */
  predicate Encodable(e: Entry)
  {
    match e
    case Short(item) =>
      && item.kind < 4 && item.tag < 16 && item.value.size in {0, 1, 2, 4} && item.value.raw < Pow256(item.value.size)
      && !(item.kind == 3 && item.tag == 15 && item.value.size == 2)
    case Long(_, data) => |data| < 256
  }

  function Encoded(e: Entry): seq<u8>
    requires Encodable(e)
  {
    match e
    case Short(item) =>
      var code := if item.value.size == 4 then 3 else item.value.size;
      [item.tag * 16 + item.kind * 4 + code] + ToBytes(item.value.raw, item.value.size)
    case Long(tag, data) => [0xFE, |data|, tag] + data
  }

  function EncodedAll(entries: seq<Entry>): seq<u8>
    requires forall k :: 0 <= k < |entries| ==> Encodable(entries[k])
  {
    if entries == [] then [] else Encoded(entries[0]) + EncodedAll(entries[1..])
  }

  function ShortItems(entries: seq<Entry>): seq<Item>
  {
    if entries == [] then []
    else if entries[0].Short? then [entries[0].item] + ShortItems(entries[1..])
    else ShortItems(entries[1..])
  }

  lemma ShortIsNext(bytes: seq<u8>, at: nat, item: Item)
    requires Encodable(Short(item)) && at + |Encoded(Short(item))| <= |bytes|
    requires bytes[at..at + |Encoded(Short(item))|] == Encoded(Short(item))
    ensures NextItem(bytes, at) == Ok((Some(item), at + |Encoded(Short(item))|))
  {
    var written, size := Encoded(Short(item)), item.value.size;
    assert bytes[at] == written[0];
    assert bytes[at + 1..at + 1 + size] == written[1..] == ToBytes(item.value.raw, size);
    FromTo(item.value.raw, size);
    PrefixIsSplit(item.tag, item.kind, if size == 4 then 3 else size);
  }

  lemma PrefixIsSplit(tag: nat, kind: nat, code: nat)
    requires kind < 4 && code < 4
    ensures
      var prefix := tag * 16 + kind * 4 + code;
      prefix % 4 == code && (prefix / 4) % 4 == kind && prefix / 16 == tag
  {
  }

  lemma LongIsNext(bytes: seq<u8>, at: nat, tag: u8, data: seq<u8>)
    requires |data| < 256 && at + 3 + |data| <= |bytes| && bytes[at..at + 3 + |data|] == [0xFE, |data|, tag] + data
    ensures NextItem(bytes, at) == Ok((None, at + 3 + |data|))
  {
    var written := [0xFE, |data|, tag] + data;
    assert bytes[at] == written[0] && bytes[at + 1] == written[1];
  }

  lemma EntryIsNext(bytes: seq<u8>, at: nat, e: Entry)
    requires Encodable(e) && at + |Encoded(e)| <= |bytes| && bytes[at..at + |Encoded(e)|] == Encoded(e)
    ensures at < |bytes|
    ensures NextItem(bytes, at) == Ok((if e.Short? then Some(e.item) else None, at + |Encoded(e)|))
  {
    match e
    case Short(item) => ShortIsNext(bytes, at, item);
    case Long(tag, data) => LongIsNext(bytes, at, tag, data);
  }

  lemma ReadsOnward(bytes: seq<u8>, at: nat, items: seq<Item>)
    requires at < |bytes| && NextItem(bytes, at).Ok? && ReadItems(bytes, NextItem(bytes, at).value.1) == (items, true)
    ensures
      var item := NextItem(bytes, at).value.0;
      ReadItems(bytes, at) == (if item.Some? then [item.value] + items else items, true)
  {
  }

  lemma {:induction false} ItemsReadBackFrom(bytes: seq<u8>, at: nat, entries: seq<Entry>)
    requires forall k :: 0 <= k < |entries| ==> Encodable(entries[k])
    requires at <= |bytes| && bytes[at..] == EncodedAll(entries)
    ensures ReadItems(bytes, at) == (ShortItems(entries), true)
    decreases |entries|
  {
    if entries != [] {
      var first, rest := Encoded(entries[0]), EncodedAll(entries[1..]);
      SliceSplits(bytes, at, first, rest);
      EntryIsNext(bytes, at, entries[0]);
      ItemsReadBackFrom(bytes, at + |first|, entries[1..]);
      ReadsOnward(bytes, at, ShortItems(entries[1..]));
    }
  }

  lemma SliceSplits(bytes: seq<u8>, at: nat, first: seq<u8>, rest: seq<u8>)
    requires at <= |bytes| && bytes[at..] == first + rest
    ensures at + |first| <= |bytes| && bytes[at..at + |first|] == first && bytes[at + |first|..] == rest
  {
    assert bytes[at..at + |first|] == bytes[at..][..|first|];
    assert bytes[at + |first|..] == bytes[at..][|first|..];
  }

  /** A descriptor written item by item is read back as those items, its long items skipped. */
  lemma ItemsReadBack(entries: seq<Entry>)
    requires forall k :: 0 <= k < |entries| ==> Encodable(entries[k])
    ensures ReadItems(EncodedAll(entries), 0) == (ShortItems(entries), true)
  {
    ItemsReadBackFrom(EncodedAll(entries), 0, entries);
  }
}
