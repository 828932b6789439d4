/** Axes, hat switches and plain values: what listeners hear of them over any run of reports. */
module HidAnalog {
  import opened Bits
  import opened HidDecode
  import opened HidDecoder
  import opened HidLayout
  import HidPackets
  import opened HidReplay
  import opened HidValues
  import opened Objects

  /** The control an event speaks of. */
  predicate Concerns(e: Event, u: Usage)
  {
    match e
    case Key(_, id, _) => u == Usage(KEYBOARD_PAGE, id)
    case Button(_, id, _) => u == Usage(BUTTON_PAGE, id)
    case Axis(_, axis, _, _, _) => u == Usage(DESKTOP_PAGE, axis)
    case HatSwitch(_, _) => u == Usage(DESKTOP_PAGE, HAT_SWITCH)
    case Value(_, owner, _, _) => u == owner
  }

  predicate IsAxis(u: Usage) { u.page == DESKTOP_PAGE && 0x30 <= u.id <= 0x38 }

  /** The nearest step of -32767..32767 to where the value lies between its limits. */
  predicate Nearest(scaled: int, value: int, minimum: int, maximum: int)
  {
    if maximum <= minimum then scaled == 0
    else
      var span := maximum - minimum;
      -span <= 2 * ((scaled - AXIS_MIN) * span - (Clamp(value, minimum, maximum) - minimum) * 65534) <= span
  }

  /** The event shows that value of that control of the field. */
  predicate Shows(f: InputField, u: Usage, value: int, e: Event)
  {
    && Concerns(e, u) && e.application == f.application
    && match e
       case Key(_, _, pressed) => pressed == (value != 0)
       case Button(_, _, pressed) => pressed == (value != 0)
       case Axis(_, _, scaled, rawValue, relative) =>
         && IsAxis(u) && rawValue == value && relative == f.flags.relative
         && if relative then scaled == Clamp(value, -0x8000_0000, 0x7FFF_FFFF)
            else Nearest(scaled, value, f.logicalMin, f.logicalMax)
       case HatSwitch(_, position) =>
         && (position.Some? <==> f.logicalMin <= value <= f.logicalMax && value < f.logicalMin + 8)
         && (position.Some? ==> f.logicalMin + position.value == value)
       case Value(_, _, plain, relative) =>
         && !Digital(u) && !IsAxis(u) && u != Usage(DESKTOP_PAGE, HAT_SWITCH)
         && plain == value && relative == f.flags.relative
  }

  lemma NormalizeAxisIsNearest(value: int, minimum: int, maximum: int)
    ensures Nearest(NormalizeAxis(value, minimum, maximum), value, minimum, maximum)
  {
    if minimum < maximum {
      var span := maximum - minimum;
      var n := (Clamp(value, minimum, maximum) - minimum) * 65534 + span / 2;
      assert n == (n / span) * span + n % span;
    }
  }

  lemma EventShowsValue(f: InputField, u: Usage, value: int)
    ensures Shows(f, u, value, EventForValue(f, u, value))
  {
    NormalizeAxisIsNearest(value, f.logicalMin, f.logicalMax);
  }

  // ------------------------------------------------------------- what is heard

  /** The last event about the control. */
  function Heard(events: seq<Event>, u: Usage, before: Option<Event>): Option<Event>
  {
    if events == [] then before
    else
      var last := events[|events| - 1];
      if Concerns(last, u) then Some(last) else Heard(events[..|events| - 1], u, before)
  }

  /** How far the events say the control has moved. */
  function Travel(events: seq<Event>, u: Usage): int
  {
    if events == [] then 0
    else
      var last := events[|events| - 1];
      Travel(events[..|events| - 1], u) +
      if !Concerns(last, u) then 0 else if last.Axis? || last.Value? then last.value else 0
  }

  lemma {:induction false} HeardConcat(a: seq<Event>, b: seq<Event>, u: Usage, before: Option<Event>)
    ensures Heard(a + b, u, before) == Heard(b, u, Heard(a, u, before))
    ensures Travel(a + b, u) == Travel(a, u) + Travel(b, u)
    decreases |b|
  {
    if b == [] {
      assert a + b == a;
    } else {
      assert (a + b)[..|a + b| - 1] == a + b[..|b| - 1];
      HeardConcat(a, b[..|b| - 1], u, before);
    }
  }

  lemma HeardOne(e: Event, u: Usage, before: Option<Event>)
    ensures Heard([e], u, before) == if Concerns(e, u) then Some(e) else before
    ensures Travel([e], u) == if Concerns(e, u) && (e.Axis? || e.Value?) then e.value else 0
  {
    assert [e][..0] == [];
  }

  /** Controls whose events carry a number. */
  predicate Moving(u: Usage) { !Digital(u) && u != Usage(DESKTOP_PAGE, HAT_SWITCH) }

  /** An element speaks only of its own usage. */
  lemma ElementIsHeard(f: InputField, s: FieldState, index: nat, value: int, u: Usage, before: Option<Event>)
    requires HidDecode.Fits(f, s) && index < f.count
    ensures
      var events := ElementEvents(f, s, index, value);
      var mine := UsageForElement(f, index) == Some(u) && events != [];
      && Heard(events, u, before) == (if mine then Some(EventForValue(f, u, value)) else before)
      && Travel(events, u) == if mine && Moving(u) then EventForValue(f, u, value).value else 0
  {
    var usage := UsageForElement(f, index);
    if usage.Some? {
      var e := EventForValue(f, usage.value, value);
      HeardOne(e, u, before);
      EventShowsValue(f, usage.value, value);
    }
  }

  /** Element `i` of the field, and no other, stands for the control. */
  predicate Stands(f: InputField, i: nat, u: Usage)
  {
    f.flags.variable && i < f.count && UsageForElement(f, i) == Some(u) && AtMostOne(f, u)
  }

  predicate Mute(events: seq<Event>, u: Usage)
  {
    forall k :: 0 <= k < |events| ==> !Concerns(events[k], u)
  }

  lemma {:induction false} MuteIsUnheard(events: seq<Event>, u: Usage, before: Option<Event>)
    requires Mute(events, u)
    ensures Heard(events, u, before) == before && Travel(events, u) == 0
  {
    if events != [] { MuteIsUnheard(events[..|events| - 1], u, before); }
  }

  lemma {:induction false} FlatIsHeard(lists: nat -> seq<Event>, n: nat, k: nat, u: Usage, before: Option<Event>)
    requires forall l: nat :: l < n && l != k ==> Mute(lists(l), u)
    ensures Heard(Flat(lists, n), u, before) == if k < n then Heard(lists(k), u, before) else before
    ensures Travel(Flat(lists, n), u) == if k < n then Travel(lists(k), u) else 0
    decreases n
  {
    if n > 0 {
      FlatIsHeard(lists, n - 1, k, u, before);
      var earlier := Flat(lists, n - 1);
      HeardConcat(earlier, lists(n - 1), u, before);
      if n - 1 != k { MuteIsUnheard(lists(n - 1), u, Heard(earlier, u, before)); }
    }
  }

  lemma OtherElementIsMute(f: InputField, s: FieldState, index: nat, value: int, u: Usage)
    requires HidDecode.Fits(f, s) && index < f.count && UsageForElement(f, index) != Some(u)
    ensures Mute(ElementEvents(f, s, index, value), u)
  {
    var usage := UsageForElement(f, index);
    if usage.Some? { EventShowsValue(f, usage.value, value); }
  }

  lemma OnlyItsElementIsHeard(f: InputField, s: FieldState, new': seq<int>, u: Usage, i: nat, before: Option<Event>)
    requires HidDecode.Fits(f, s) && |new'| == f.count && Stands(f, i, u)
    ensures
      var events, mine := VariableEvents(f, s, new', f.count), ElementEvents(f, s, i, new'[i]);
      Heard(events, u, before) == Heard(mine, u, before) && Travel(events, u) == Travel(mine, u)
  {
    VariableIsFlat(f, s, new');
    forall l: nat | l < f.count && l != i ensures Mute(HidDecode.Elements(f, s, new')(l), u) {
      OtherElementIsMute(f, s, l, new'[l], u);
    }
    FlatIsHeard(HidDecode.Elements(f, s, new'), f.count, i, u, before);
  }

  // --------------------------------------------------------- absolute controls

  /** What was last heard shows the value held; silence means nothing was read, or zero. */
  ghost predicate InTune(f: InputField, s: FieldState, u: Usage, i: nat, heard: Option<Event>)
    requires HidDecode.Fits(f, s) && i < f.count
  {
    if heard.Some? then Shows(f, u, s.values[i], heard.value)
    else s.values[i] == 0 && (u.page == DESKTOP_PAGE ==> !s.initialized[i])
  }

  lemma ReadingKeepsInTune(f: InputField, s: FieldState, new': seq<int>, u: Usage, i: nat, heard: Option<Event>)
    requires HidDecode.Fits(f, s) && |new'| == f.count && Stands(f, i, u) && !f.flags.relative
    requires InTune(f, s, u, i, heard)
    ensures InTune(f, Decode(f, s, new').0, u, i, Heard(Decode(f, s, new').1, u, heard))
    ensures u.page == DESKTOP_PAGE ==> Heard(Decode(f, s, new').1, u, heard).Some?
  {
    OnlyItsElementIsHeard(f, s, new', u, i, heard);
    ElementIsHeard(f, s, i, new'[i], u, heard);
    EventShowsValue(f, u, new'[i]);
  }

  lemma {:induction false} RunKeepsInTune(f: InputField, readings: seq<seq<int>>, u: Usage, i: nat)
    requires AllFit(f, readings) && Stands(f, i, u) && !f.flags.relative
    ensures
      var (state, events) := HidReplay.Run(f, readings);
      && InTune(f, state, u, i, Heard(events, u, None))
      && (readings != [] && u.page == DESKTOP_PAGE ==> Heard(events, u, None).Some?)
    decreases |readings|
  {
    if readings != [] {
      var n := |readings| - 1;
      RunKeepsInTune(f, readings[..n], u, i);
      var before := HidReplay.Run(f, readings[..n]);
      ReadingKeepsInTune(f, before.0, readings[n], u, i, Heard(before.1, u, None));
      HeardConcat(before.1, Decode(f, before.0, readings[n]).1, u, None);
    }
  }

  /** After any packets, the last event about an absolute axis, hat or value shows the value
      last reported; before the first event that value is zero, and an axis or hat is
      announced with its first report. */
  lemma ControlIsKnown(layout: DeviceLayout, packets: seq<seq<u8>>, r: nat, k: nat, i: nat, u: Usage)
    requires Sound(layout) && IsField(layout, r, k)
    requires Stands(layout.reports[r].fields[k], i, u) && !layout.reports[r].fields[k].flags.relative
    ensures
      var f, seen := layout.reports[r].fields[k], Seen(layout, packets, r, k);
      var heard := Heard(FieldEventsRun(layout, packets, r, k), u, None);
      seen != [] ==>
        && (heard.Some? ==> Shows(f, u, seen[|seen| - 1][i], heard.value))
        && (heard.None? ==> seen[|seen| - 1][i] == 0 && u.page != DESKTOP_PAGE)
  {
    FieldRunsAlone(layout, packets, r, k);
    RunKeepsInTune(layout.reports[r].fields[k], Seen(layout, packets, r, k), u, i);
  }

  // --------------------------------------------------------- relative controls

  /** What one report adds: an axis moves by at most a signed word. */
  function Move(u: Usage, v: int): int { if IsAxis(u) then Clamp(v, -0x8000_0000, 0x7FFF_FFFF) else v }

  /** All that element `i` reported, added up. */
  function Moves(readings: seq<seq<int>>, i: nat, move: int -> int): int
    requires forall k :: 0 <= k < |readings| ==> i < |readings[k]|
  {
    if readings == [] then 0
    else Moves(readings[..|readings| - 1], i, move) + move(readings[|readings| - 1][i])
  }

  lemma {:induction false} MotionAdds(f: InputField, readings: seq<seq<int>>, u: Usage, i: nat)
    requires AllFit(f, readings) && Stands(f, i, u) && f.flags.relative && Moving(u)
    ensures Travel(HidReplay.Run(f, readings).1, u) == Moves(readings, i, v => Move(u, v))
    decreases |readings|
  {
    if readings != [] {
      var n := |readings| - 1;
      MotionAdds(f, readings[..n], u, i);
      var before := HidReplay.Run(f, readings[..n]);
      HeardConcat(before.1, Decode(f, before.0, readings[n]).1, u, None);
      OnlyItsElementIsHeard(f, before.0, readings[n], u, i, None);
      ElementIsHeard(f, before.0, i, readings[n][i], u, None);
      EventShowsValue(f, u, readings[n][i]);
    }
  }

  /** No possible reading of the field exceeds a signed word exactly when it is signed or
      narrower than 32 bits. */
  lemma WordHoldsExactly(f: InputField)
    requires 1 <= f.bitSize <= 32
    ensures (forall v :: Possible(f, v) ==> -0x8000_0000 <= v <= 0x7FFF_FFFF) <==> f.logicalMin < 0 || f.bitSize <= 31
  {
    Pow32();
    PowGrows(f.bitSize, 32);
    if f.bitSize <= 31 { PowGrows(f.bitSize, 31); }
    if f.logicalMin < 0 { PowGrows(f.bitSize - 1, 31); assert Pow2(f.bitSize) == 2 * Pow2(f.bitSize - 1); }
    if f.logicalMin >= 0 && f.bitSize == 32 { assert Possible(f, 0x8000_0000); }
  }

  lemma {:induction false} MovesAreWhole(f: InputField, readings: seq<seq<int>>, u: Usage, i: nat)
    requires AllFit(f, readings) && CanArrive(f, readings) && i < f.count && 1 <= f.bitSize <= 32
    requires f.logicalMin < 0 || f.bitSize <= 31
    ensures Moves(readings, i, v => Move(u, v)) == Moves(readings, i, v => v)
    decreases |readings|
  {
    if readings != [] {
      var n := |readings| - 1;
      MovesAreWhole(f, readings[..n], u, i);
      WordHoldsExactly(f);
      assert PossibleReading(f, readings[n]);
    }
  }

  /** The relative events of any packets add up to all the motion that was reported, whole
      for every field that is signed or narrower than 32 bits. */
  lemma MotionIsConserved(layout: DeviceLayout, packets: seq<seq<u8>>, r: nat, k: nat, i: nat, u: Usage)
    requires Sound(layout) && IsField(layout, r, k)
    requires Stands(layout.reports[r].fields[k], i, u) && layout.reports[r].fields[k].flags.relative && Moving(u)
    ensures
      var f, seen := layout.reports[r].fields[k], Seen(layout, packets, r, k);
      var travel := Travel(FieldEventsRun(layout, packets, r, k), u);
      && travel == Moves(seen, i, v => Move(u, v))
      && (f.logicalMin < 0 || f.bitSize <= 31 ==> travel == Moves(seen, i, v => v))
  {
    var f, seen := layout.reports[r].fields[k], Seen(layout, packets, r, k);
    FieldRunsAlone(layout, packets, r, k);
    MotionAdds(f, seen, u, i);
    HidPackets.SeenCanArrive(layout, packets, r, k);
    assert FieldOk(f, |layout.applications|);
    if f.logicalMin < 0 || f.bitSize <= 31 { MovesAreWhole(f, seen, u, i); }
  }
}
