/** What a device can send, and what replaying the decoder's events then tells. */
module HidPackets {
  import opened Bits
  import opened HidDecode
  import opened HidDecoder
  import opened HidLayout
  import opened HidReplay
  import opened HidValues
  import opened LittleEndian
  import opened Objects

  // -------------------------------------------------- numbers made of readings

  lemma {:induction false} ShiftedAdds(n: nat, a: nat, b: nat)
    ensures Shifted(n, a + b) == Shifted(Shifted(n, a), b)
    decreases a
  {
    if a > 0 {
      HalveThenDivide(n, Pow2(a - 1 + b));
      HalveThenDivide(n, Pow2(a - 1));
      ShiftedAdds(n / 2, a - 1, b);
    }
  }

  /** Numbers of so many bits, one behind the other. */
  function Spread(raws: seq<nat>, size: nat): nat
  {
    if raws == [] then 0 else raws[0] + Spread(raws[1..], size) * Pow2(size)
  }

  predicate Below(raws: seq<nat>, bound: nat) { forall i :: 0 <= i < |raws| ==> raws[i] < bound }

  lemma SpreadNext(raws: seq<nat>, size: nat)
    requires raws != [] && Below(raws, Pow2(size))
    ensures Shifted(Spread(raws, size), size) == Spread(raws[1..], size)
    ensures Spread(raws, size) % Pow2(size) == raws[0]
  {
    DivUnique(Spread(raws, size), Pow2(size), Spread(raws[1..], size), raws[0]);
  }

  lemma {:induction false} SpreadAt(raws: seq<nat>, size: nat, i: nat)
    requires i < |raws| && Below(raws, Pow2(size))
    ensures Extract(Spread(raws, size), i * size, size) == raws[i]
    decreases i
  {
    SpreadNext(raws, size);
    if i == 0 {
      assert Pow2(0) == 1 && i * size == 0;
    } else {
      assert i * size == size + (i - 1) * size;
      ShiftedAdds(Spread(raws, size), size, (i - 1) * size);
      SpreadAt(raws[1..], size, i - 1);
    }
  }

  lemma {:induction false} SpreadFits(raws: seq<nat>, size: nat)
    requires Below(raws, Pow2(size))
    ensures Spread(raws, size) < Pow2(size * |raws|)
    decreases |raws|
  {
    if raws != [] {
      SpreadFits(raws[1..], size);
      var rest, all := Spread(raws[1..], size), Pow2(size * |raws[1..]|);
      assert size * |raws| == size * |raws[1..]| + size;
      PowAdds(size * |raws[1..]|, size);
      MulLess(rest, all, Pow2(size));
      SubtractMultiple(all, rest, Pow2(size));
      MulAtLeast(all - rest, Pow2(size));
    }
  }

  // ----------------------------------------------------- numbers for one field

  /** The bits that read as a value. */
  function RawOf(f: InputField, v: int): nat
    requires Sized(f) && Possible(f, v)
  {
    if v >= 0 then v else v + Pow2(f.bitSize)
  }

  lemma RawReads(f: InputField, v: int)
    requires Sized(f) && Possible(f, v)
    ensures RawOf(f, v) < Pow2(f.bitSize) && LogicalValue(RawOf(f, v), f.bitSize, f.logicalMin) == v
  {
    assert Pow2(f.bitSize) == 2 * Pow2(f.bitSize - 1);
    LogicalValueIsSigned(RawOf(f, v), f.bitSize, f.logicalMin);
  }

  function RawsOf(f: InputField, values: seq<int>): (raws: seq<nat>)
    requires Sized(f) && PossibleReading(f, values)
    ensures |raws| == f.count && forall i :: 0 <= i < f.count ==> raws[i] == RawOf(f, values[i])
  {
    seq(f.count, i requires 0 <= i < f.count => RawOf(f, values[i]))
  }

  lemma RawsFit(f: InputField, values: seq<int>)
    requires Sized(f) && PossibleReading(f, values)
    ensures Below(RawsOf(f, values), Pow2(f.bitSize))
  {
    forall i | 0 <= i < f.count ensures RawsOf(f, values)[i] < Pow2(f.bitSize) { RawReads(f, values[i]); }
  }

  lemma PlacedFits(f: InputField, values: seq<int>)
    requires Sized(f) && PossibleReading(f, values)
    ensures Spread(RawsOf(f, values), f.bitSize) < Pow2(FieldBits(f))
  {
    RawsFit(f, values);
    SpreadFits(RawsOf(f, values), f.bitSize);
  }

  lemma AddMultiple(n: nat, m: nat, d: nat)
    requires d > 0
    ensures (n + m * d) / d == n / d + m && (n + m * d) % d == n % d
  {
    assert (n / d + m) * d == n / d * d + m * d;
    DivUnique(n + m * d, d, n / d + m, n % d);
  }

  lemma Regroup(m: nat, r: nat, e: nat, d: nat)
    ensures m * (r * e * d) == ((m * r) * e) * d
  {
    assert m * (r * e * d) == (m * (r * e)) * d;
    assert m * (r * e) == (m * r) * e;
  }

  lemma MultiplesVanish(n: nat, m: nat, e: nat, d: nat)
    requires d > 0 && e > 0
    ensures n / d >= 0 && ((n + (m * e) * d) / d) % e == (n / d) % e
  {
    QuotientIsNat(n, d);
    AddMultiple(n, m * e, d);
    AddMultiple(n / d, m, e);
  }

  /** What lies above a range of bits does not show in it. */
  lemma AddAbove(n: nat, m: nat, above: nat, offset: nat, size: nat)
    requires offset + size <= above
    ensures Extract(n + m * Pow2(above), offset, size) == Extract(n, offset, size)
  {
    var rest := above - offset - size;
    PowAdds(rest, size);
    PowAdds(rest + size, offset);
    Regroup(m, Pow2(rest), Pow2(size), Pow2(offset));
    MultiplesVanish(n, m * Pow2(rest), Pow2(size), Pow2(offset));
  }

  lemma ShiftAway(n: nat, m: nat, below: nat)
    requires n < Pow2(below)
    ensures Shifted(n + m * Pow2(below), below) == m
  {
    DivUnique(n + m * Pow2(below), Pow2(below), m, n);
  }

  /** Nor does what lies below it. */
  lemma AddBelow(n: nat, m: nat, below: nat, offset: nat, size: nat)
    requires n < Pow2(below)
    ensures Extract(n + m * Pow2(below), below + offset, size) == Extract(m, offset, size)
  {
    ShiftAway(n, m, below);
    ShiftedAdds(n + m * Pow2(below), below, offset);
  }

  // -------------------------------------------------- whole reports of readings

  predicate AllSized(fields: seq<InputField>) { forall k :: 0 <= k < |fields| ==> Sized(fields[k]) }

  predicate AllPossible(fields: seq<InputField>, values: seq<seq<int>>)
  {
    |values| == |fields| && forall k :: 0 <= k < |fields| ==> PossibleReading(fields[k], values[k])
  }

  function FieldNumber(fields: seq<InputField>, values: seq<seq<int>>, k: nat): nat
    requires AllSized(fields) && AllPossible(fields, values) && k < |fields|
  {
    Spread(RawsOf(fields[k], values[k]), fields[k].bitSize)
  }

  /** The first `n` fields in their places, zero everywhere else. */
  function Placed(fields: seq<InputField>, values: seq<seq<int>>, n: nat): nat
    requires AllSized(fields) && AllPossible(fields, values) && n <= |fields|
  {
    if n == 0 then 0
    else Placed(fields, values, n - 1) + FieldNumber(fields, values, n - 1) * Pow2(fields[n - 1].bitOffset)
  }

  lemma EndsBelow(low: nat, high: nat, d: nat, p: nat)
    requires low < d && high < p
    ensures low + high * d < p * d
  {
    SubtractMultiple(p, high, d);
    MulAtLeast(p - high, d);
  }

  lemma {:induction false} PlacedEnds(fields: seq<InputField>, values: seq<seq<int>>, bits: nat, n: nat)
    requires AllSized(fields) && AllPossible(fields, values) && Ordered(fields, bits) && n <= |fields|
    ensures Placed(fields, values, n) < Pow2(if n == |fields| then bits else fields[n].bitOffset)
    decreases n
  {
    var end := if n == |fields| then bits else fields[n].bitOffset;
    if n > 0 {
      var f, number := fields[n - 1], FieldNumber(fields, values, n - 1);
      PlacedEnds(fields, values, bits, n - 1);
      PlacedFits(f, values[n - 1]);
      FieldEnds(fields, bits, n - 1);
      EndsBelow(Placed(fields, values, n - 1), number, Pow2(f.bitOffset), Pow2(FieldBits(f)));
      PowAdds(FieldBits(f), f.bitOffset);
      PowGrows(FieldBits(f) + f.bitOffset, end);
    }
  }

  lemma {:induction false} FieldBefore(fields: seq<InputField>, bits: nat, k: nat, n: nat)
    requires Ordered(fields, bits) && k < n < |fields|
    ensures fields[k].bitOffset + FieldBits(fields[k]) <= fields[n].bitOffset
    decreases n
  {
    if k + 1 < n { FieldBefore(fields, bits, k, n - 1); }
  }

  lemma NumberReads(fields: seq<InputField>, values: seq<seq<int>>, k: nat, i: nat, x: nat)
    requires AllSized(fields) && AllPossible(fields, values) && k < |fields|
    requires i < fields[k].count && x == i * fields[k].bitSize
    ensures Extract(FieldNumber(fields, values, k), x, fields[k].bitSize) == RawOf(fields[k], values[k][i])
  {
    RawsFit(fields[k], values[k]);
    SpreadAt(RawsOf(fields[k], values[k]), fields[k].bitSize, i);
  }

  lemma LastReads(fields: seq<InputField>, values: seq<seq<int>>, bits: nat, k: nat, x: nat)
    requires AllSized(fields) && AllPossible(fields, values) && Ordered(fields, bits) && k < |fields|
    ensures Extract(Placed(fields, values, k + 1), fields[k].bitOffset + x, fields[k].bitSize)
         == Extract(FieldNumber(fields, values, k), x, fields[k].bitSize)
  {
    PlacedEnds(fields, values, bits, k);
    AddBelow(Placed(fields, values, k), FieldNumber(fields, values, k), fields[k].bitOffset, x, fields[k].bitSize);
  }

  /** One more field above does not change what lies below it. */
  lemma NextFieldKeeps(fields: seq<InputField>, values: seq<seq<int>>, n: nat, at: nat, size: nat)
    requires AllSized(fields) && AllPossible(fields, values) && n < |fields| && at + size <= fields[n].bitOffset
    ensures Extract(Placed(fields, values, n + 1), at, size) == Extract(Placed(fields, values, n), at, size)
  {
    AddAbove(Placed(fields, values, n), FieldNumber(fields, values, n), fields[n].bitOffset, at, size);
  }

  /** Nor do all the fields above. */
  lemma {:induction false} LaterFieldsKeep(
    fields: seq<InputField>, values: seq<seq<int>>, bits: nat, k: nat, n: nat, at: nat, size: nat)
    requires AllSized(fields) && AllPossible(fields, values) && Ordered(fields, bits) && k < n <= |fields|
    requires at + size <= fields[k].bitOffset + FieldBits(fields[k])
    ensures Extract(Placed(fields, values, n), at, size) == Extract(Placed(fields, values, k + 1), at, size)
    decreases n
  {
    if k + 1 < n {
      LaterFieldsKeep(fields, values, bits, k, n - 1, at, size);
      FieldBefore(fields, bits, k, n - 1);
      NextFieldKeeps(fields, values, n - 1, at, size);
    }
  }

  /** Each element reads back, whatever the other fields hold. */
  lemma PlacedReads(fields: seq<InputField>, values: seq<seq<int>>, bits: nat, k: nat, i: nat, x: nat)
    requires AllSized(fields) && AllPossible(fields, values) && Ordered(fields, bits) && k < |fields|
    requires i < fields[k].count && x == i * fields[k].bitSize
    ensures Extract(Placed(fields, values, |fields|), fields[k].bitOffset + x, fields[k].bitSize)
         == RawOf(fields[k], values[k][i])
  {
    SlotInside(fields[k].bitSize, fields[k].count, i);
    LaterFieldsKeep(fields, values, bits, k, |fields|, fields[k].bitOffset + x, fields[k].bitSize);
    LastReads(fields, values, bits, k, x);
    NumberReads(fields, values, k, i, x);
  }

  /** Each field of this payload reads as asked. */
  ghost predicate ReadsAs(r: ReportLayout, payload: seq<u8>, values: seq<seq<int>>)
  {
    AllCovered(r, payload) && |values| == |r.fields| &&
    forall k :: 0 <= k < |r.fields| ==> Readings(r.fields[k], payload) == values[k]
  }

  lemma PayloadFor(r: ReportLayout, layout: DeviceLayout, values: seq<seq<int>>) returns (payload: seq<u8>)
    requires ReportSound(r, layout) && AllPossible(r.fields, values)
    ensures |payload| == InputBytes(r) && ReadsAs(r, payload, values)
  {
    var number := Placed(r.fields, values, |r.fields|);
    payload := ToBytes(number, InputBytes(r));
    PlacedEnds(r.fields, values, r.inputBits, |r.fields|);
    PowGrows(r.inputBits, 8 * InputBytes(r));
    BytesArePow2(InputBytes(r));
    FromTo(number, InputBytes(r));
    forall k | 0 <= k < |r.fields| ensures Covers(r.fields[k], payload) { FieldEnds(r.fields, r.inputBits, k); }
    forall k | 0 <= k < |r.fields| ensures Readings(r.fields[k], payload) == values[k] {
      PayloadReads(r, values, payload, k);
    }
  }

  lemma ReadingAt(f: InputField, payload: seq<u8>, i: nat, x: nat)
    requires Covers(f, payload) && x == i * f.bitSize
    ensures Reading(f, payload, i) ==
      LogicalValue(Extract(FromBytes(payload), f.bitOffset + x, f.bitSize), f.bitSize, f.logicalMin)
  {
  }

  lemma LogicalOf(f: InputField, v: int, raw: nat)
    requires Sized(f) && Possible(f, v) && raw == RawOf(f, v)
    ensures LogicalValue(raw, f.bitSize, f.logicalMin) == v
  {
    RawReads(f, v);
  }

  lemma ElementReads(
    fields: seq<InputField>, values: seq<seq<int>>, bits: nat, payload: seq<u8>, k: nat, i: nat, x: nat)
    requires AllSized(fields) && AllPossible(fields, values) && Ordered(fields, bits) && k < |fields|
    requires FromBytes(payload) == Placed(fields, values, |fields|) && Covers(fields[k], payload)
    requires i < fields[k].count && x == i * fields[k].bitSize
    ensures Reading(fields[k], payload, i) == values[k][i]
  {
    var f := fields[k];
    PlacedReads(fields, values, bits, k, i, x);
    LogicalOf(f, values[k][i], Extract(FromBytes(payload), f.bitOffset + x, f.bitSize));
    ReadingAt(f, payload, i, x);
  }

  function Product(i: nat, n: nat): nat { i * n }

  lemma ReadsAt(r: ReportLayout, values: seq<seq<int>>, payload: seq<u8>, k: nat, i: nat)
    requires AllSized(r.fields) && AllPossible(r.fields, values) && Ordered(r.fields, r.inputBits) && k < |r.fields|
    requires FromBytes(payload) == Placed(r.fields, values, |r.fields|) && Covers(r.fields[k], payload)
    requires i < r.fields[k].count
    ensures Reading(r.fields[k], payload, i) == values[k][i]
  {
    ElementReads(r.fields, values, r.inputBits, payload, k, i, Product(i, r.fields[k].bitSize));
  }

  lemma PayloadReads(r: ReportLayout, values: seq<seq<int>>, payload: seq<u8>, k: nat)
    requires AllSized(r.fields) && AllPossible(r.fields, values) && Ordered(r.fields, r.inputBits) && k < |r.fields|
    requires FromBytes(payload) == Placed(r.fields, values, |r.fields|) && Covers(r.fields[k], payload)
    ensures Readings(r.fields[k], payload) == values[k]
  {
    var f := r.fields[k];
    forall i: nat | i < f.count { ReadsAt(r, values, payload, k, i); }
    SameReadings(f, payload, values[k]);
  }

  lemma SameReadings(f: InputField, payload: seq<u8>, values: seq<int>)
    requires Covers(f, payload) && |values| == f.count
    requires forall i: nat :: i < f.count ==> Reading(f, payload, i) == values[i]
    ensures Readings(f, payload) == values
  {
  }

  /** Every combination of possible readings of a report's fields arrives in some accepted
      packet. */
  lemma PacketForAll(layout: DeviceLayout, i: nat, values: seq<seq<int>>) returns (packet: seq<u8>)
    requires Sound(layout) && i < |layout.reports| && AllPossible(layout.reports[i].fields, values)
    ensures Locate(layout, packet).Ok? && Locate(layout, packet).value.0 == i
    ensures ReadsAs(layout.reports[i], Locate(layout, packet).value.1, values)
  {
    var r := layout.reports[i];
    assert ReportSound(r, layout);
    var payload := PayloadFor(r, layout, values);
    packet := if layout.usesReportIds then [r.reportId] + payload else payload;
    assert layout.usesReportIds ==> packet[1..] == payload;
    assert IndexOf(layout.reports, r.reportId) == Some(i);
  }

  function AtRest(f: InputField): seq<int> { seq(f.count, _ => 0) }

  /** Everything at rest except field `k`. */
  function OnlyField(r: ReportLayout, k: nat, values: seq<int>): (all: seq<seq<int>>)
    requires k < |r.fields|
    ensures |all| == |r.fields| && all[k] == values
    ensures forall l :: 0 <= l < |all| && l != k ==> all[l] == AtRest(r.fields[l])
  {
    seq(|r.fields|, l requires 0 <= l < |r.fields| => if l == k then values else AtRest(r.fields[l]))
  }

  lemma RestIsPossible(f: InputField)
    requires Sized(f)
    ensures PossibleReading(f, AtRest(f))
  {
    SomeValueIsPossible(f);
  }

  /** In particular every possible reading of one field, the others at rest. */
  lemma PacketFor(layout: DeviceLayout, i: nat, k: nat, values: seq<int>) returns (packet: seq<u8>)
    requires Sound(layout) && IsField(layout, i, k) && PossibleReading(layout.reports[i].fields[k], values)
    ensures Locate(layout, packet).Ok? && Locate(layout, packet).value.0 == i
    ensures ReadsAs(layout.reports[i], Locate(layout, packet).value.1, OnlyField(layout.reports[i], k, values))
  {
    var r := layout.reports[i];
    assert ReportSound(r, layout);
    forall l | 0 <= l < |r.fields| ensures PossibleReading(r.fields[l], OnlyField(r, k, values)[l]) {
      RestIsPossible(r.fields[l]);
    }
    packet := PacketForAll(layout, i, OnlyField(r, k, values));
  }

  // ---------------------------------------------------------------------- runs

  lemma {:induction false} SeenCanArrive(layout: DeviceLayout, packets: seq<seq<u8>>, i: nat, k: nat)
    requires Sound(layout) && IsField(layout, i, k)
    ensures CanArrive(layout.reports[i].fields[k], Seen(layout, packets, i, k))
    decreases |packets|
  {
    if packets != [] {
      var n := |packets| - 1;
      SeenCanArrive(layout, packets[..n], i, k);
      var at := Locate(layout, packets[n]);
      if at.Ok? && at.value.0 == i {
        LocatedIsCovered(layout, packets[n]);
        PayloadsArePossible(layout.reports[i].fields[k], at.value.1);
      }
    }
  }

  predicate AllAtRest(f: InputField, readings: seq<seq<int>>)
  {
    forall n :: 0 <= n < |readings| ==> readings[n] == AtRest(f)
  }

  lemma SeenNext(layout: DeviceLayout, packets: seq<seq<u8>>, packet: seq<u8>, j: nat, l: nat, values: seq<seq<int>>)
    requires Sound(layout) && IsField(layout, j, l) && Locate(layout, packet).Ok?
    requires ReadsAs(layout.reports[Locate(layout, packet).value.0], Locate(layout, packet).value.1, values)
    ensures Seen(layout, packets + [packet], j, l) ==
      if Locate(layout, packet).value.0 == j then Seen(layout, packets, j, l) + [values[l]]
      else Seen(layout, packets, j, l)
  {
    assert (packets + [packet])[..|packets|] == packets;
  }

  ghost predicate RestAt(layout: DeviceLayout, packets: seq<seq<u8>>, j: nat, l: nat)
    requires Sound(layout) && IsField(layout, j, l)
  {
    AllAtRest(layout.reports[j].fields[l], Seen(layout, packets, j, l))
  }

  lemma RestNext(layout: DeviceLayout, packets: seq<seq<u8>>, packet: seq<u8>, j: nat, l: nat, values: seq<seq<int>>)
    requires Sound(layout) && IsField(layout, j, l) && RestAt(layout, packets, j, l) && Locate(layout, packet).Ok?
    requires ReadsAs(layout.reports[Locate(layout, packet).value.0], Locate(layout, packet).value.1, values)
    requires Locate(layout, packet).value.0 == j ==> values[l] == AtRest(layout.reports[j].fields[l])
    ensures RestAt(layout, packets + [packet], j, l)
  {
    SeenNext(layout, packets, packet, j, l, values);
  }

  ghost predicate OthersAtRest(layout: DeviceLayout, packets: seq<seq<u8>>, i: nat, k: nat)
    requires Sound(layout)
  {
    forall j: nat, l: nat :: IsField(layout, j, l) && (j != i || l != k) ==> RestAt(layout, packets, j, l)
  }

  /** One more reading of the field. */
  lemma NextPacket(layout: DeviceLayout, before: seq<seq<u8>>, i: nat, k: nat, reading: seq<int>)
    returns (packet: seq<u8>)
    requires Sound(layout) && IsField(layout, i, k) && OthersAtRest(layout, before, i, k)
    requires PossibleReading(layout.reports[i].fields[k], reading)
    ensures Seen(layout, before + [packet], i, k) == Seen(layout, before, i, k) + [reading]
    ensures OthersAtRest(layout, before + [packet], i, k)
  {
    packet := PacketFor(layout, i, k, reading);
    var values := OnlyField(layout.reports[i], k, reading);
    SeenNext(layout, before, packet, i, k, values);
    forall j: nat, l: nat | IsField(layout, j, l) && (j != i || l != k)
      ensures RestAt(layout, before + [packet], j, l)
    {
      RestNext(layout, before, packet, j, l, values);
    }
  }

  /** Any readings of one field, the others at rest throughout. */
  lemma {:induction false} PacketsFor(layout: DeviceLayout, i: nat, k: nat, readings: seq<seq<int>>)
    returns (packets: seq<seq<u8>>)
    requires Sound(layout) && IsField(layout, i, k) && CanArrive(layout.reports[i].fields[k], readings)
    ensures Seen(layout, packets, i, k) == readings && OthersAtRest(layout, packets, i, k)
    decreases |readings|
  {
    if readings == [] {
      packets := [];
    } else {
      var n := |readings| - 1;
      var before := PacketsFor(layout, i, k, readings[..n]);
      var packet := NextPacket(layout, before, i, k, readings[n]);
      packets := before + [packet];
      assert readings == readings[..n] + [readings[n]];
    }
  }

  /** After these packets, replaying what the field announced gives its part in whether
      the key is active. */
  ghost predicate ReplayMatches(layout: DeviceLayout, packets: seq<seq<u8>>, i: nat, k: nat, u: Usage)
    requires Sound(layout) && IsField(layout, i, k)
  {
    Replay(FieldEventsRun(layout, packets, i, k), u, false) ==
    Contributes(layout.reports[i].fields[k], StatesRun(layout, packets)[i][k], u)
  }

  lemma MatchesIsRight(layout: DeviceLayout, packets: seq<seq<u8>>, i: nat, k: nat, u: Usage)
    requires Sound(layout) && IsField(layout, i, k)
    ensures ReplayMatches(layout, packets, i, k, u) ==
            RightAfter(layout.reports[i].fields[k], u, Seen(layout, packets, i, k))
  {
    FieldRunsAlone(layout, packets, i, k);
  }

  /** Whatever packets arrive, a trusted field's events tell what it holds. */
  lemma DecoderReplays(layout: DeviceLayout, packets: seq<seq<u8>>, i: nat, k: nat, u: Usage)
    requires Sound(layout) && IsField(layout, i, k) && Digital(u) && Trusted(layout.reports[i].fields[k], u)
    ensures ReplayMatches(layout, packets, i, k, u)
  {
    assert ReportSound(layout.reports[i], layout);
    SeenCanArrive(layout, packets, i, k);
    RunReplays(layout.reports[i].fields[k], Seen(layout, packets, i, k), u);
    MatchesIsRight(layout, packets, i, k, u);
  }

  /** And some packets mislead about every other field. */
  lemma MisleadingPackets(layout: DeviceLayout, i: nat, k: nat, u: Usage) returns (packets: seq<seq<u8>>)
    requires Sound(layout) && IsField(layout, i, k) && Digital(u) && !Trusted(layout.reports[i].fields[k], u)
    ensures !ReplayMatches(layout, packets, i, k, u)
  {
    var f := layout.reports[i].fields[k];
    assert ReportSound(layout.reports[i], layout);
    UntrustedReplaysWrongly(f, u);
    var readings :| CanArrive(f, readings) && !(AllFit(f, readings) && RightAfter(f, u, readings));
    packets := PacketsFor(layout, i, k, readings);
    MatchesIsRight(layout, packets, i, k, u);
  }

  /** Over all packets the events tell the truth about a key exactly when the field's
      description is trusted about it. */
  lemma ReplayMatchesExactly(layout: DeviceLayout, i: nat, k: nat, u: Usage)
    requires Sound(layout) && IsField(layout, i, k) && Digital(u)
    ensures Trusted(layout.reports[i].fields[k], u) <==> forall packets :: ReplayMatches(layout, packets, i, k, u)
  {
    if Trusted(layout.reports[i].fields[k], u) {
      forall packets ensures ReplayMatches(layout, packets, i, k, u) { DecoderReplays(layout, packets, i, k, u); }
    } else {
      var packets := MisleadingPackets(layout, i, k, u);
    }
  }

  // ------------------------------------------------------------------ rollover

  /** A keyboard array that reports an error rollover in a packet keeps what it remembers
      and announces nothing, whatever the rest of the packet does. */
  lemma RolloverFieldStays(layout: DeviceLayout, states: seq<seq<FieldState>>, packet: seq<u8>, k: nat)
    requires Sound(layout) && StatesFit(layout, states) && Locate(layout, packet).Ok?
    requires IsField(layout, Locate(layout, packet).value.0, k)
    requires
      var f, payload := layout.reports[Locate(layout, packet).value.0].fields[k], Locate(layout, packet).value.1;
      !f.flags.variable && Covers(f, payload) && RollsOver(f, Readings(f, payload))
    ensures var i := Locate(layout, packet).value.0;
            AfterPacket(layout, states, packet)[i][k] == states[i][k] && FieldEvents(layout, states, packet, i, k) == []
  {
  }

  lemma {:induction false} QuietFields(r: ReportLayout, states: seq<FieldState>, payload: seq<u8>, n: nat)
    requires ReportFits(r, states) && AllCovered(r, payload) && n <= |states|
    requires forall k :: 0 <= k < n ==> FieldAfter(r, states, payload, k) == (states[k], [])
    ensures StatesUpTo(r, states, payload, n) == states[..n] && EventsUpTo(r, states, payload, n) == []
    decreases n
  {
    if n > 0 { QuietFields(r, states, payload, n - 1); }
  }

  /** A packet whose fields all roll over changes nothing: no events, the same remembered
      values, the same keys active. */
  lemma RolloverPacketChangesNothing(layout: DeviceLayout, states: seq<seq<FieldState>>, packet: seq<u8>, u: Usage)
    requires Sound(layout) && StatesFit(layout, states) && Locate(layout, packet).Ok?
    requires
      var r, payload := layout.reports[Locate(layout, packet).value.0], Locate(layout, packet).value.1;
      AllCovered(r, payload) &&
      forall k :: 0 <= k < |r.fields| ==>
        !r.fields[k].flags.variable && RollsOver(r.fields[k], Readings(r.fields[k], payload))
    ensures AfterPacket(layout, states, packet) == states && EventsOf(layout, states, packet) == Ok([])
    ensures Active(layout, AfterPacket(layout, states, packet), u) == Active(layout, states, u)
  {
    var i, payload := Locate(layout, packet).value.0, Locate(layout, packet).value.1;
    QuietFields(layout.reports[i], states[i], payload, |states[i]|);
    assert states[i][..|states[i]|] == states[i];
  }
}
