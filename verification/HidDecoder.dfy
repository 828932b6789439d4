/** The stateful report decoder: packets in, events and remembered values out. */
module HidDecoder {
  import opened HidDecode
  import opened HidLayout
  import opened HidReplay
  import opened HidValues
  import opened Objects

  datatype DecodeError =
    | MissingReportId | UnknownReportId(id: nat) | ReportTooShort(expected: nat, actual: nat)

  function InputBytes(r: ReportLayout): nat { (r.inputBits + 7) / 8 }

  /** Which report a packet is, and its payload. */
  function Locate(layout: DeviceLayout, packet: seq<u8>): (r: Result<(nat, seq<u8>), DecodeError>)
    ensures r.Ok? ==> r.value.0 < |layout.reports| && layout.reports[r.value.0].inputBits <= 8 * |r.value.1|
  {
    if layout.usesReportIds && packet == [] then Err(MissingReportId)
    else
      var id := if layout.usesReportIds then packet[0] else 0;
      var payload := if layout.usesReportIds then packet[1..] else packet;
      var at := IndexOf(layout.reports, id);
      if at.None? then Err(UnknownReportId(id))
      else
        var required := InputBytes(layout.reports[at.value]);
        if |payload| < required then Err(ReportTooShort(required + (if layout.usesReportIds then 1 else 0), |packet|))
        else Ok((at.value, payload))
  }

  /** Which report a packet belongs to, and why it belongs to none. */
  lemma LocateIsExact(layout: DeviceLayout, packet: seq<u8>, r: nat)
    requires Distinct(layout.reports) && r < |layout.reports|
    ensures
      var at, numbered := Locate(layout, packet), layout.usesReportIds;
      var id := layout.reports[r].reportId;
      var named := if numbered then packet != [] && packet[0] == id else id == 0;
      var payload := if numbered && packet != [] then packet[1..] else packet;
      && (at == Ok((r, payload)) <==> named && layout.reports[r].inputBits <= 8 * |payload|)
      && (named && layout.reports[r].inputBits > 8 * |payload| ==>
            && at.Err? && at.error.ReportTooShort? && at.error.actual == |packet|
            && 0 <= 8 * (at.error.expected - |packet| + |payload|) - layout.reports[r].inputBits < 8)
      && (at == Err(MissingReportId) <==> numbered && packet == [])
      && (named ==> !(at.Err? && at.error.UnknownReportId?))
  {
  }

  // ------------------------------------------------------- reading is in range

  lemma {:induction false} FieldEnds(fields: seq<InputField>, bits: nat, k: nat)
    requires Ordered(fields, bits) && k < |fields|
    ensures fields[k].bitOffset + FieldBits(fields[k]) <= bits
    decreases |fields| - k
  {
    if k + 1 < |fields| { FieldEnds(fields, bits, k + 1); }
  }

  /** An accepted packet holds every bit of every field of its report. */
  lemma AcceptedPacketsAreCovered(layout: DeviceLayout, packet: seq<u8>, k: nat)
    requires Sound(layout) && Locate(layout, packet).Ok?
    requires k < |layout.reports[Locate(layout, packet).value.0].fields|
    ensures Covers(layout.reports[Locate(layout, packet).value.0].fields[k], Locate(layout, packet).value.1)
  {
    var r := layout.reports[Locate(layout, packet).value.0];
    assert ReportSound(r, layout);
    FieldEnds(r.fields, r.inputBits, k);
  }

  lemma ElementInside(f: InputField, payload: seq<u8>, index: nat)
    requires Covers(f, payload) && index < f.count
    ensures f.bitOffset + index * f.bitSize + f.bitSize <= 8 * |payload|
  {
    SlotInside(f.bitSize, f.count, index);
  }

  lemma SlotInside(size: nat, count: nat, index: nat)
    requires index < count
    ensures index * size + size <= size * count
    decreases count - index
  {
    if index + 1 < count { SlotInside(size, count, index + 1); }
  }

  method ReadElement(f: InputField, payload: seq<u8>, index: nat) returns (value: int)
    requires Covers(f, payload) && index < f.count
    ensures value == Reading(f, payload, index)
  {
    ElementInside(f, payload, index);
    var raw := ReadBits(payload, f.bitOffset + index * f.bitSize, f.bitSize);
    value := LogicalValue(raw, f.bitSize, f.logicalMin);
  }

  method ReadAll(f: InputField, payload: seq<u8>) returns (values: seq<int>)
    requires Covers(f, payload)
    ensures values == Readings(f, payload)
  {
    values := [];
    for index := 0 to f.count
      invariant values == Readings(f, payload)[..index]
    {
      var value := ReadElement(f, payload, index);
      values := values + [value];
    }
  }

  // ------------------------------------------------------------ field by field

  /** Takes over the readings of a variable field one element at a time. */
  method UpdateElements(f: InputField, s: FieldState, new': seq<int>) returns (t: FieldState, events: seq<Event>)
    requires Fits(f, s) && |new'| == f.count && f.flags.variable
    ensures (t, events) == Decode(f, s, new')
  {
    var values, initialized := s.values, s.initialized;
    events := [];
    for index := 0 to f.count
      invariant |values| == |initialized| == f.count
      invariant forall k :: 0 <= k < f.count ==> values[k] == if k < index then new'[k] else s.values[k]
      invariant forall k :: 0 <= k < f.count ==> initialized[k] == (k < index || s.initialized[k])
      invariant events == VariableEvents(f, s, new', index)
    {
      events := events + ElementEvents(f, s, index, new'[index]);
      values := values[index := new'[index]];
      initialized := initialized[index := true];
    }
    assert values == new' && initialized == seq(f.count, _ => true);
    t := FieldState(values, initialized);
  }

  method DecodeField(f: InputField, s: FieldState, payload: seq<u8>) returns (t: FieldState, events: seq<Event>)
    requires Fits(f, s) && Covers(f, payload)
    ensures (t, events) == Decode(f, s, Readings(f, payload))
  {
    var values := ReadAll(f, payload);
    if f.flags.variable {
      t, events := UpdateElements(f, s, values);
    } else {
      t, events := UpdateSelectors(f, s, values);
    }
  }

  method CollectChanges(f: InputField, from: seq<int>, other: seq<int>, pressed: bool) returns (events: seq<Event>)
    ensures events == Announce(f, Changes(from, other, |from|), pressed)
  {
    events := [];
    ghost var changes: seq<int> := [];
    for index := 0 to |from|
      invariant changes == Changes(from, other, index)
      invariant events == Announce(f, changes, pressed)
    {
      var v := from[index];
      if v != 0 && v !in from[..index] && v !in other {
        var announced := KeyEvents(f, v, pressed);
        events := events + announced;
        assert (changes + [v])[..|changes|] == changes;
        changes := changes + [v];
      }
    }
  }

  /** Takes over the readings of an array field, unless they report an error rollover. */
  method UpdateSelectors(f: InputField, s: FieldState, values: seq<int>) returns (t: FieldState, events: seq<Event>)
    requires Fits(f, s) && |values| == f.count && !f.flags.variable
    ensures (t, events) == Decode(f, s, values)
  {
    events := [];
    if f.defaultUsagePage == KEYBOARD_PAGE {
      for index := 0 to f.count
        invariant forall k :: 0 <= k < index ==> !IsErrorUsage(values[k])
      {
        if IsErrorUsage(values[index]) { return s, []; }
      }
      var released := CollectChanges(f, s.values, values, false);
      var pressed := CollectChanges(f, values, s.values, true);
      events := released + pressed;
    }
    t := s.(values := values);
  }

  // ----------------------------------------------------------- whole packets

  predicate StatesFit(layout: DeviceLayout, states: seq<seq<FieldState>>)
  {
    && |states| == |layout.reports|
    && forall i :: 0 <= i < |states| ==> ReportFits(layout.reports[i], states[i])
  }

  predicate ReportFits(r: ReportLayout, states: seq<FieldState>)
  {
    |states| == |r.fields| && forall k :: 0 <= k < |states| ==> Fits(r.fields[k], states[k])
  }

  predicate AllCovered(r: ReportLayout, payload: seq<u8>)
  {
    forall k :: 0 <= k < |r.fields| ==> Covers(r.fields[k], payload)
  }

  /** Field `k` of a report after a payload, and what it announces. */
  function FieldAfter(r: ReportLayout, states: seq<FieldState>, payload: seq<u8>, k: nat): (FieldState, seq<Event>)
    requires ReportFits(r, states) && AllCovered(r, payload) && k < |states|
  {
    Decode(r.fields[k], states[k], Readings(r.fields[k], payload))
  }

  /** The first `n` fields after a payload. */
  function StatesUpTo(r: ReportLayout, states: seq<FieldState>, payload: seq<u8>, n: nat): (t: seq<FieldState>)
    requires ReportFits(r, states) && AllCovered(r, payload) && n <= |states|
    ensures |t| == n && forall k :: 0 <= k < n ==> t[k] == FieldAfter(r, states, payload, k).0
  {
    if n == 0 then [] else StatesUpTo(r, states, payload, n - 1) + [FieldAfter(r, states, payload, n - 1).0]
  }

  /** The events of the first `n` fields, in field order. */
  function EventsUpTo(r: ReportLayout, states: seq<FieldState>, payload: seq<u8>, n: nat): seq<Event>
    requires ReportFits(r, states) && AllCovered(r, payload) && n <= |states|
  {
    if n == 0 then [] else EventsUpTo(r, states, payload, n - 1) + FieldAfter(r, states, payload, n - 1).1
  }

  method DecodeFields(r: ReportLayout, states: seq<FieldState>, payload: seq<u8>)
    returns (after: seq<FieldState>, events: seq<Event>)
    requires ReportFits(r, states) && AllCovered(r, payload)
    ensures after == StatesUpTo(r, states, payload, |states|) && events == EventsUpTo(r, states, payload, |states|)
  {
    after, events := [], [];
    for k := 0 to |states|
      invariant after == StatesUpTo(r, states, payload, k)
      invariant events == EventsUpTo(r, states, payload, k)
    {
      var t, announced := DecodeField(r.fields[k], states[k], payload);
      after := after + [t];
      events := events + announced;
    }
  }

  lemma LocatedIsCovered(layout: DeviceLayout, packet: seq<u8>)
    requires Sound(layout) && Locate(layout, packet).Ok?
    ensures AllCovered(layout.reports[Locate(layout, packet).value.0], Locate(layout, packet).value.1)
  {
    var at := Locate(layout, packet).value;
    forall k | 0 <= k < |layout.reports[at.0].fields| ensures Covers(layout.reports[at.0].fields[k], at.1) {
      AcceptedPacketsAreCovered(layout, packet, k);
    }
  }

  /** All remembered values after a packet; a refused packet changes nothing. */
  function AfterPacket(layout: DeviceLayout, states: seq<seq<FieldState>>, packet: seq<u8>): (r: seq<seq<FieldState>>)
    requires Sound(layout) && StatesFit(layout, states)
    ensures StatesFit(layout, r)
  {
    var at := Locate(layout, packet);
    if at.Err? then states
    else
      LocatedIsCovered(layout, packet);
      var i := at.value.0;
      states[i := StatesUpTo(layout.reports[i], states[i], at.value.1, |states[i]|)]
  }

  function EventsOf(
    layout: DeviceLayout, states: seq<seq<FieldState>>, packet: seq<u8>): Result<seq<Event>, DecodeError>
    requires Sound(layout) && StatesFit(layout, states)
  {
    var at := Locate(layout, packet);
    if at.Err? then Err(at.error)
    else
      LocatedIsCovered(layout, packet);
      var i := at.value.0;
      Ok(EventsUpTo(layout.reports[i], states[i], at.value.1, |states[i]|))
  }

  function NewStates(layout: DeviceLayout): (r: seq<seq<FieldState>>)
    ensures StatesFit(layout, r)
  {
    seq(|layout.reports|, i requires 0 <= i < |layout.reports| =>
      seq(|layout.reports[i].fields|, k requires 0 <= k < |layout.reports[i].fields| =>
        NewState(layout.reports[i].fields[k])))
  }

  predicate ReportActive(r: ReportLayout, states: seq<FieldState>, u: Usage)
    requires ReportFits(r, states)
  {
    exists k :: 0 <= k < |states| && Contributes(r.fields[k], states[k], u)
  }

  /** Whether any field holds the key. */
  predicate Active(layout: DeviceLayout, states: seq<seq<FieldState>>, u: Usage)
    requires StatesFit(layout, states)
  {
    Digital(u) && exists i :: 0 <= i < |states| && ReportActive(layout.reports[i], states[i], u)
  }

  class ReportDecoder {
    const layout: DeviceLayout
    var states: seq<seq<FieldState>>

    ghost predicate Valid()
      reads this
    {
      Sound(layout) && StatesFit(layout, states)
    }

    constructor (layout: DeviceLayout)
      requires Sound(layout)
      ensures Valid() && this.layout == layout && states == NewStates(layout)
    {
      this.layout := layout;
      states := NewStates(layout);
    }

    method DecodeInto(packet: seq<u8>) returns (r: Result<seq<Event>, DecodeError>)
      requires Valid()
      modifies this
      ensures Valid() && states == AfterPacket(layout, old(states), packet)
      ensures r == EventsOf(layout, old(states), packet)
    {
      var at := Locate(layout, packet);
      if at.Err? { return Err(at.error); }
      LocatedIsCovered(layout, packet);
      var i, payload := at.value.0, at.value.1;
      var after, events := DecodeFields(layout.reports[i], states[i], payload);
      states := states[i := after];
      return Ok(events);
    }

    method ElementIsActive(f: InputField, s: FieldState, u: Usage) returns (active: bool)
      requires Fits(f, s)
      ensures active == Contributes(f, s, u)
    {
      for k := 0 to f.count
        invariant forall j :: 0 <= j < k ==> !ElementActive(f, s, u, j)
      {
        if ElementActive(f, s, u, k) { return true; }
      }
      return false;
    }

    method ReportIsActive(i: nat, u: Usage) returns (active: bool)
      requires Valid() && i < |states|
      ensures active == ReportActive(layout.reports[i], states[i], u)
    {
      for k := 0 to |states[i]|
        invariant forall j :: 0 <= j < k ==> !Contributes(layout.reports[i].fields[j], states[i][j], u)
      {
        var held := ElementIsActive(layout.reports[i].fields[k], states[i][k], u);
        if held { return true; }
      }
      return false;
    }

    method IsActive(u: Usage) returns (active: bool)
      requires Valid()
      ensures active == Active(layout, states, u)
    {
      if !Digital(u) { return false; }
      for i := 0 to |states|
        invariant forall j :: 0 <= j < i ==> !ReportActive(layout.reports[j], states[j], u)
      {
        var held := ReportIsActive(i, u);
        if held { return true; }
      }
      return false;
    }
  }

  // -------------------------------------------------------------------- runs

  function StatesRun(layout: DeviceLayout, packets: seq<seq<u8>>): (r: seq<seq<FieldState>>)
    requires Sound(layout)
    ensures StatesFit(layout, r)
    decreases |packets|
  {
    if packets == [] then NewStates(layout)
    else AfterPacket(layout, StatesRun(layout, packets[..|packets| - 1]), packets[|packets| - 1])
  }

  predicate IsField(layout: DeviceLayout, i: nat, k: nat)
  {
    i < |layout.reports| && k < |layout.reports[i].fields|
  }

  /** What field `k` of report `i` announces on a packet. */
  function FieldEvents(layout: DeviceLayout, states: seq<seq<FieldState>>, packet: seq<u8>, i: nat, k: nat): seq<Event>
    requires Sound(layout) && StatesFit(layout, states) && IsField(layout, i, k)
  {
    var at := Locate(layout, packet);
    if at.Err? || at.value.0 != i then []
    else
      LocatedIsCovered(layout, packet);
      FieldAfter(layout.reports[i], states[i], at.value.1, k).1
  }

  /** Everything that field announced over a run. */
  function FieldEventsRun(layout: DeviceLayout, packets: seq<seq<u8>>, i: nat, k: nat): seq<Event>
    requires Sound(layout) && IsField(layout, i, k)
    decreases |packets|
  {
    if packets == [] then []
    else
      var n := |packets| - 1;
      FieldEventsRun(layout, packets[..n], i, k) +
      FieldEvents(layout, StatesRun(layout, packets[..n]), packets[n], i, k)
  }

  /** The readings that field was given over a run. */
  function Seen(layout: DeviceLayout, packets: seq<seq<u8>>, i: nat, k: nat): (r: seq<seq<int>>)
    requires Sound(layout) && IsField(layout, i, k)
    ensures AllFit(layout.reports[i].fields[k], r)
    decreases |packets|
  {
    if packets == [] then []
    else
      var n := |packets| - 1;
      var before, at := Seen(layout, packets[..n], i, k), Locate(layout, packets[n]);
      if at.Err? || at.value.0 != i then before
      else
        LocatedIsCovered(layout, packets[n]);
        before + [Readings(layout.reports[i].fields[k], at.value.1)]
  }

  /** One packet: the field takes the next reading, or nothing happens to it. */
  lemma FieldSteps(layout: DeviceLayout, states: seq<seq<FieldState>>, packet: seq<u8>, i: nat, k: nat)
    requires Sound(layout) && StatesFit(layout, states) && IsField(layout, i, k)
    ensures
      var at, f := Locate(layout, packet), layout.reports[i].fields[k];
      var after := (AfterPacket(layout, states, packet)[i][k], FieldEvents(layout, states, packet, i, k));
      && Fits(f, states[i][k])
      && (at.Ok? && at.value.0 == i ==>
            Covers(f, at.value.1) && after == Decode(f, states[i][k], Readings(f, at.value.1)))
      && (!(at.Ok? && at.value.0 == i) ==> after == (states[i][k], []))
  {
    if Locate(layout, packet).Ok? { LocatedIsCovered(layout, packet); }
  }

  lemma RunGrows(f: InputField, readings: seq<seq<int>>, reading: seq<int>)
    requires AllFit(f, readings) && |reading| == f.count
    ensures AllFit(f, readings + [reading])
    ensures
      var before := HidReplay.Run(f, readings);
      var after := Decode(f, before.0, reading);
      HidReplay.Run(f, readings + [reading]) == (after.0, before.1 + after.1)
  {
    assert (readings + [reading])[..|readings|] == readings;
  }

  /** Over any packets a field behaves as if it saw only its own readings. */
  lemma {:induction false} FieldRunsAlone(layout: DeviceLayout, packets: seq<seq<u8>>, i: nat, k: nat)
    requires Sound(layout) && IsField(layout, i, k)
    ensures (StatesRun(layout, packets)[i][k], FieldEventsRun(layout, packets, i, k))
         == HidReplay.Run(layout.reports[i].fields[k], Seen(layout, packets, i, k))
    decreases |packets|
  {
    if packets != [] {
      var n, f := |packets| - 1, layout.reports[i].fields[k];
      FieldRunsAlone(layout, packets[..n], i, k);
      FieldSteps(layout, StatesRun(layout, packets[..n]), packets[n], i, k);
      var at := Locate(layout, packets[n]);
      if at.Ok? && at.value.0 == i {
        RunGrows(f, Seen(layout, packets[..n], i, k), Readings(f, at.value.1));
      } else {
        assert FieldEventsRun(layout, packets, i, k) == FieldEventsRun(layout, packets[..n], i, k);
      }
    }
  }
}
