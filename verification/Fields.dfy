/** Records of fixed-width little-endian numbers. */
module Fields {
  import opened LittleEndian
  import opened Objects

  function Width(widths: seq<nat>): nat
  {
    if widths == [] then 0 else widths[0] + Width(widths[1..])
  }

  /** Each number fits its width. */
  predicate Fit(values: seq<nat>, widths: seq<nat>)
  {
    |values| == |widths| && forall i :: 0 <= i < |values| ==> values[i] < Pow256(widths[i])
  }

  function Pack(values: seq<nat>, widths: seq<nat>): (bytes: seq<u8>)
    requires |values| == |widths|
    ensures |bytes| == Width(widths)
  {
    if values == [] then [] else ToBytes(values[0], widths[0]) + Pack(values[1..], widths[1..])
  }

  function Unpack(bytes: seq<u8>, widths: seq<nat>): (values: seq<nat>)
    requires |bytes| == Width(widths)
    ensures |values| == |widths|
    decreases |widths|
  {
    if widths == [] then [] else [FromBytes(bytes[..widths[0]])] + Unpack(bytes[widths[0]..], widths[1..])
  }

  lemma {:induction false} UnpackPack(values: seq<nat>, widths: seq<nat>)
    requires Fit(values, widths)
    ensures Unpack(Pack(values, widths), widths) == values
  {
    if values != [] {
      var first, rest := ToBytes(values[0], widths[0]), Pack(values[1..], widths[1..]);
      UnpackPack(values[1..], widths[1..]);
      FromTo(values[0], widths[0]);
      assert (first + rest)[..widths[0]] == first && (first + rest)[widths[0]..] == rest;
    }
  }

  lemma PackCons(v: nat, values: seq<nat>, w: nat, widths: seq<nat>)
    requires |values| == |widths|
    ensures Pack([v] + values, [w] + widths) == ToBytes(v, w) + Pack(values, widths)
  {
    assert ([v] + values)[1..] == values && ([w] + widths)[1..] == widths;
  }

  lemma {:induction false} PackUnpack(bytes: seq<u8>, widths: seq<nat>)
    requires |bytes| == Width(widths)
    ensures Pack(Unpack(bytes, widths), widths) == bytes
    decreases |widths|
  {
    if widths != [] {
      var w, others := widths[0], widths[1..];
      var first, rest := bytes[..w], bytes[w..];
      PackUnpack(rest, others);
      PackCons(FromBytes(first), Unpack(rest, others), w, others);
      assert widths == [w] + others && bytes == first + rest;
      assert ToBytes(FromBytes(first), w) == first by { ToFrom(first); }
    }
  }

  /** The number at an offset. */
  function Number(bytes: seq<u8>, at: nat, width: nat): nat
    requires at + width <= |bytes|
  {
    FromBytes(bytes[at..at + width])
  }

  lemma {:induction false} WidthNext(widths: seq<nat>, i: nat)
    requires i < |widths|
    ensures Width(widths[..i + 1]) == Width(widths[..i]) + widths[i] <= Width(widths)
  {
    if i == 0 {
      assert widths[..1][1..] == [];
    } else {
      assert widths[..i + 1][1..] == widths[1..][..i] && widths[..i][1..] == widths[1..][..i - 1];
      WidthNext(widths[1..], i - 1);
    }
  }

  /** Each number stands behind the widths before it. */
  lemma {:induction false} PackedAt(values: seq<nat>, widths: seq<nat>, i: nat, tail: seq<u8>)
    requires Fit(values, widths) && i < |values| && Width(widths[..i]) + widths[i] <= Width(widths)
    ensures Number(Pack(values, widths) + tail, Width(widths[..i]), widths[i]) == values[i]
    decreases i
  {
    var first, rest := ToBytes(values[0], widths[0]), Pack(values[1..], widths[1..]) + tail;
    assert Pack(values, widths) + tail == first + rest;
    if i == 0 {
      FromTo(values[0], widths[0]);
      assert (first + rest)[..widths[0]] == first;
    } else {
      WidthNext(widths[1..], i - 1);
      assert widths[..i][1..] == widths[1..][..i - 1];
      PackedAt(values[1..], widths[1..], i - 1, tail);
      NumberBehind(first, rest, Width(widths[1..][..i - 1]), widths[i]);
    }
  }

  lemma NumberBehind(first: seq<u8>, rest: seq<u8>, at: nat, width: nat)
    requires at + width <= |rest|
    ensures Number(first + rest, |first| + at, width) == Number(rest, at, width)
  {
    assert (first + rest)[|first| + at..|first| + at + width] == rest[at..at + width];
  }

  // --------------------------------------------------------- strings in a row

  type Bytes = seq<u8>

  function Lengths(pieces: seq<Bytes>): seq<nat>
  {
    seq(|pieces|, i requires 0 <= i < |pieces| => |pieces[i]|)
  }

  function Join(pieces: seq<Bytes>): (bytes: Bytes)
    ensures |bytes| == Width(Lengths(pieces))
  {
    if pieces == [] then [] else
      assert Lengths(pieces)[1..] == Lengths(pieces[1..]);
      pieces[0] + Join(pieces[1..])
  }

  lemma {:induction false} JoinSnoc(pieces: seq<Bytes>, last: Bytes)
    ensures Join(pieces + [last]) == Join(pieces) + last
  {
    if pieces == [] {
      assert [last][1..] == [];
    } else {
      assert (pieces + [last])[1..] == pieces[1..] + [last];
      JoinSnoc(pieces[1..], last);
    }
  }

  lemma {:induction false} JoinEqual(pieces: seq<Bytes>, size: nat)
    requires forall i :: 0 <= i < |pieces| ==> |pieces[i]| == size
    ensures |Join(pieces)| == |pieces| * size
  {
    if pieces != [] {
      JoinEqual(pieces[1..], size);
      assert |pieces| * size == size + |pieces[1..]| * size;
    }
  }

  /** Pieces of the given lengths, and what is left. */
  function Slice(bytes: Bytes, lengths: seq<nat>): (r: (seq<Bytes>, Bytes))
    requires Width(lengths) <= |bytes|
    ensures |r.0| == |lengths|
    decreases |lengths|
  {
    if lengths == [] then ([], bytes)
    else
      var others := Slice(bytes[lengths[0]..], lengths[1..]);
      ([bytes[..lengths[0]]] + others.0, others.1)
  }

  lemma {:induction false} SliceRest(bytes: Bytes, lengths: seq<nat>)
    requires Width(lengths) <= |bytes|
    ensures Slice(bytes, lengths).1 == bytes[Width(lengths)..]
    decreases |lengths|
  {
    if lengths != [] {
      SliceRest(bytes[lengths[0]..], lengths[1..]);
      assert bytes[lengths[0]..][Width(lengths[1..])..] == bytes[Width(lengths)..];
    }
  }

  lemma {:induction false} SliceJoin(pieces: seq<Bytes>, tail: Bytes)
    ensures Slice(Join(pieces) + tail, Lengths(pieces)) == (pieces, tail)
  {
    if pieces == [] {
      assert Join(pieces) + tail == tail;
    } else {
      SliceJoin(pieces[1..], tail);
      PeelJoined(pieces, tail);
      SliceFirst(Join(pieces) + tail, Lengths(pieces));
      assert [pieces[0]] + pieces[1..] == pieces;
    }
  }

  lemma PeelJoined(pieces: seq<Bytes>, tail: Bytes)
    requires pieces != []
    ensures Lengths(pieces)[0] == |pieces[0]| && Lengths(pieces)[1..] == Lengths(pieces[1..])
    ensures (Join(pieces) + tail)[..|pieces[0]|] == pieces[0]
    ensures (Join(pieces) + tail)[|pieces[0]|..] == Join(pieces[1..]) + tail
  {
    Peel(pieces[0], Join(pieces[1..]), tail);
  }

  lemma Peel(a: Bytes, b: Bytes, c: Bytes)
    ensures (a + b + c)[..|a|] == a && (a + b + c)[|a|..] == b + c
  {
  }

  lemma SliceFirst(bytes: Bytes, lengths: seq<nat>)
    requires lengths != [] && Width(lengths) <= |bytes|
    ensures var rest := Slice(bytes[lengths[0]..], lengths[1..]);
            Slice(bytes, lengths).0 == [bytes[..lengths[0]]] + rest.0 && Slice(bytes, lengths).1 == rest.1
  {
  }

  lemma {:induction false} SliceLengths(bytes: Bytes, lengths: seq<nat>)
    requires Width(lengths) <= |bytes|
    ensures Lengths(Slice(bytes, lengths).0) == lengths
    decreases |lengths|
  {
    if lengths != [] {
      SliceFirst(bytes, lengths);
      SliceLengths(bytes[lengths[0]..], lengths[1..]);
      var pieces := Slice(bytes, lengths).0;
      assert pieces[1..] == Slice(bytes[lengths[0]..], lengths[1..]).0;
      assert Lengths(pieces) == [lengths[0]] + lengths[1..];
    }
  }

  lemma JoinFirst(head: Bytes, pieces: seq<Bytes>)
    ensures Join([head] + pieces) == head + Join(pieces)
  {
    assert ([head] + pieces)[1..] == pieces;
  }

  lemma TakeTwice(bytes: Bytes, a: nat, b: nat)
    requires a + b <= |bytes|
    ensures bytes[..a] + bytes[a..][..b] == bytes[..a + b]
  {
  }

  lemma {:induction false} SlicePrefix(bytes: Bytes, lengths: seq<nat>)
    requires Width(lengths) <= |bytes|
    ensures Join(Slice(bytes, lengths).0) == bytes[..Width(lengths)]
    decreases |lengths|
  {
    if lengths != [] {
      var rest := Slice(bytes[lengths[0]..], lengths[1..]).0;
      SliceFirst(bytes, lengths);
      SlicePrefix(bytes[lengths[0]..], lengths[1..]);
      JoinFirst(bytes[..lengths[0]], rest);
      TakeTwice(bytes, lengths[0], Width(lengths[1..]));
    }
  }

  lemma JoinSlice(bytes: Bytes, lengths: seq<nat>)
    requires Width(lengths) <= |bytes|
    ensures Join(Slice(bytes, lengths).0) + Slice(bytes, lengths).1 == bytes
  {
    SlicePrefix(bytes, lengths);
    SliceRest(bytes, lengths);
  }

  // --------------------------------------------------------- records in a row

  /** Reads `n` records, each knowing those before it. */
  function ParseMany<T, E>(
    step: (seq<T>, Bytes) -> Result<(T, Bytes), E>, sofar: seq<T>, rest: Bytes, n: nat): Result<(seq<T>, Bytes), E>
    decreases n
  {
    if n == 0 then Ok((sofar, rest))
    else
      var next := step(sofar, rest);
      if next.Err? then Err(next.error) else ParseMany(step, sofar + [next.value.0], next.value.1, n - 1)
  }

  function EncodeMany<T>(encode: T -> Bytes, items: seq<T>): Bytes
  {
    if items == [] then [] else encode(items[0]) + EncodeMany(encode, items[1..])
  }

  lemma ParseManyNext<T, E>(
    step: (seq<T>, Bytes) -> Result<(T, Bytes), E>, sofar: seq<T>, rest: Bytes, n: nat, next: Result<(T, Bytes), E>)
    requires n > 0 && step(sofar, rest) == next
    ensures ParseMany(step, sofar, rest, n) ==
      if next.Err? then Err(next.error) else ParseMany(step, sofar + [next.value.0], next.value.1, n - 1)
  {
  }

  /** What `step` reads is what `encode` wrote, and `ok` says what may come next. */
  ghost predicate Faithful<T(!new), E(!new)>(
    step: (seq<T>, Bytes) -> Result<(T, Bytes), E>, encode: T -> Bytes, ok: (seq<T>, T) -> bool)
  {
    && (forall sofar, x, tail :: ok(sofar, x) ==> step(sofar, encode(x) + tail) == Ok((x, tail)))
    && (forall sofar, rest :: step(sofar, rest).Ok? ==>
          ok(sofar, step(sofar, rest).value.0) && rest == encode(step(sofar, rest).value.0) + step(sofar, rest).value.1)
  }

  /** Every record may follow those before it. */
  ghost predicate Chain<T(!new)>(ok: (seq<T>, T) -> bool, items: seq<T>, from: nat)
  {
    forall k :: from <= k < |items| ==> ok(items[..k], items[k])
  }

  lemma {:induction false} ManyRoundTrip<T(!new), E(!new)>(
    step: (seq<T>, Bytes) -> Result<(T, Bytes), E>, encode: T -> Bytes, ok: (seq<T>, T) -> bool,
    items: seq<T>, from: nat, tail: Bytes)
    requires Faithful(step, encode, ok) && from <= |items| && Chain(ok, items, from)
    ensures ParseMany(step, items[..from], EncodeMany(encode, items[from..]) + tail, |items| - from) ==
      Ok((items, tail))
    decreases |items| - from
  {
    if from == |items| {
      assert items[..from] == items && EncodeMany(encode, items[from..]) + tail == tail;
    } else {
      var others := EncodeMany(encode, items[from + 1..]) + tail;
      assert items[from..][1..] == items[from + 1..];
      assert EncodeMany(encode, items[from..]) + tail == encode(items[from]) + others;
      assert items[..from] + [items[from]] == items[..from + 1];
      ManyRoundTrip(step, encode, ok, items, from + 1, tail);
    }
  }

  lemma AllRoundTrip<T(!new), E(!new)>(
    step: (seq<T>, Bytes) -> Result<(T, Bytes), E>, encode: T -> Bytes, ok: (seq<T>, T) -> bool,
    items: seq<T>, tail: Bytes)
    requires Faithful(step, encode, ok) && Chain(ok, items, 0)
    ensures ParseMany(step, [], EncodeMany(encode, items) + tail, |items|) == Ok((items, tail))
  {
    assert items[..0] == [] && items[0..] == items;
    ManyRoundTrip(step, encode, ok, items, 0, tail);
  }

  lemma {:induction false} ManyParsed<T(!new), E(!new)>(
    step: (seq<T>, Bytes) -> Result<(T, Bytes), E>, encode: T -> Bytes, ok: (seq<T>, T) -> bool,
    sofar: seq<T>, rest: Bytes, n: nat)
    requires Faithful(step, encode, ok) && ParseMany(step, sofar, rest, n).Ok?
    ensures
      var (items, tail) := ParseMany(step, sofar, rest, n).value;
      && |items| == |sofar| + n && items[..|sofar|] == sofar && Chain(ok, items, |sofar|)
      && rest == EncodeMany(encode, items[|sofar|..]) + tail
    decreases n
  {
    if n == 0 {
      assert rest == [] + rest;
    } else {
      var next := step(sofar, rest).value;
      var more := sofar + [next.0];
      ManyParsed(step, encode, ok, more, next.1, n - 1);
      var items, tail := ParseMany(step, sofar, rest, n).value.0, ParseMany(step, sofar, rest, n).value.1;
      assert items[..|sofar|] == more[..|sofar|] == sofar && items[|sofar|] == next.0;
      assert items[|sofar|..][1..] == items[|more|..];
      assert rest == encode(next.0) + (EncodeMany(encode, items[|more|..]) + tail);
    }
  }

  /** From lists with `inv`, `step` never fails this way and leads to such lists again. */
  ghost predicate Avoids<T(!new), E(!new)>(
    step: (seq<T>, Bytes) -> Result<(T, Bytes), E>, inv: seq<T> -> bool, bad: E)
  {
    forall sofar, rest :: inv(sofar) ==>
      step(sofar, rest) != Err(bad) && (step(sofar, rest).Ok? ==> inv(sofar + [step(sofar, rest).value.0]))
  }

  lemma {:induction false} ManyAvoids<T(!new), E(!new)>(
    step: (seq<T>, Bytes) -> Result<(T, Bytes), E>, inv: seq<T> -> bool, bad: E, sofar: seq<T>, rest: Bytes, n: nat)
    requires Avoids(step, inv, bad) && inv(sofar)
    ensures ParseMany(step, sofar, rest, n) != Err(bad)
    decreases n
  {
    if n > 0 {
      var next := step(sofar, rest);
      if next.Ok? { ManyAvoids(step, inv, bad, sofar + [next.value.0], next.value.1, n - 1); }
    }
  }

  /** Writes the records one after another behind what is already there. */
  method AppendMany<T>(start: Bytes, encode: T -> Bytes, items: seq<T>) returns (bytes: Bytes)
    ensures bytes == start + EncodeMany(encode, items)
  {
    bytes := start;
    for i := 0 to |items|
      invariant bytes + EncodeMany(encode, items[i..]) == start + EncodeMany(encode, items)
    {
      assert items[i..][1..] == items[i + 1..];
      bytes := bytes + encode(items[i]);
    }
  }
}
