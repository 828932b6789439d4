/** A listener that hears everything the decoder announces, all fields together, against
    the keys the decoder calls active. */
module HidListener {
  import opened HidDecode
  import opened HidDecoder
  import opened HidLayout
  import opened HidPackets
  import opened HidReplay
  import opened Objects

  // -------------------------------------------------------------------- silence

  /** Replaying either forgets where it started or leaves it alone. */
  lemma {:induction false} ReplayForgets(events: seq<Event>, u: Usage, down: bool)
    requires Replay(events, u, true) == false
    ensures Replay(events, u, down) == false
  {
    if events != [] && Says(events[|events| - 1], u).None? { ReplayForgets(events[..|events| - 1], u, down); }
  }

  // --------------------------------------------------------------- whole packets

  function PacketEvents(layout: DeviceLayout, states: seq<seq<FieldState>>, packet: seq<u8>): seq<Event>
    requires Sound(layout) && StatesFit(layout, states)
  {
    var r := EventsOf(layout, states, packet);
    if r.Ok? then r.value else []
  }

  /** Everything announced over a run. */
  function EventsRun(layout: DeviceLayout, packets: seq<seq<u8>>): seq<Event>
    requires Sound(layout)
    decreases |packets|
  {
    if packets == [] then []
    else
      var n := |packets| - 1;
      EventsRun(layout, packets[..n]) + PacketEvents(layout, StatesRun(layout, packets[..n]), packets[n])
  }

  /** The listener agrees with the decoder about `u`. */
  ghost predicate ListenerRight(layout: DeviceLayout, packets: seq<seq<u8>>, u: Usage)
    requires Sound(layout)
  {
    Replay(EventsRun(layout, packets), u, false) == Active(layout, StatesRun(layout, packets), u)
  }

  /** What each field of the report announces. */
  function FieldLists(r: ReportLayout, states: seq<FieldState>, payload: seq<u8>): nat -> seq<Event>
    requires ReportFits(r, states) && AllCovered(r, payload)
  {
    (l: nat) => if l < |states| then FieldAfter(r, states, payload, l).1 else []
  }

  function UpTo(r: ReportLayout, states: seq<FieldState>, payload: seq<u8>): nat -> seq<Event>
    requires ReportFits(r, states) && AllCovered(r, payload)
  {
    (n: nat) => if n <= |states| then EventsUpTo(r, states, payload, n) else []
  }

  lemma NextFieldAdds(r: ReportLayout, states: seq<FieldState>, payload: seq<u8>, n: nat)
    requires ReportFits(r, states) && AllCovered(r, payload) && n < |states|
    ensures AddsList(UpTo(r, states, payload), FieldLists(r, states, payload), n)
  {
  }

  lemma EventsAreFlat(r: ReportLayout, states: seq<FieldState>, payload: seq<u8>)
    requires ReportFits(r, states) && AllCovered(r, payload)
    ensures EventsUpTo(r, states, payload, |states|) == Flat(FieldLists(r, states, payload), |states|)
  {
    forall n: nat | n < |states| { NextFieldAdds(r, states, payload, n); }
    FlatIsWhole(UpTo(r, states, payload), FieldLists(r, states, payload), |states|);
  }

  /** What one field announces on a packet, if there is such a field. */
  function TargetEvents(layout: DeviceLayout, states: seq<seq<FieldState>>, packet: seq<u8>, i: nat, k: nat): seq<Event>
    requires Sound(layout) && StatesFit(layout, states)
  {
    if IsField(layout, i, k) then FieldEvents(layout, states, packet, i, k) else []
  }

  ghost predicate SilentField(
    layout: DeviceLayout, states: seq<seq<FieldState>>, packet: seq<u8>, j: nat, l: nat, u: Usage)
    requires Sound(layout) && StatesFit(layout, states) && IsField(layout, j, l)
  {
    Silent(FieldEvents(layout, states, packet, j, l), u)
  }

  /** If no other field speaks of the key, a packet says of it what that field says. */
  lemma PacketReplays(
    layout: DeviceLayout, states: seq<seq<FieldState>>, packet: seq<u8>, i: nat, k: nat, u: Usage, down: bool)
    requires Sound(layout) && StatesFit(layout, states)
    requires forall j: nat, l: nat :: IsField(layout, j, l) && (j != i || l != k) ==>
      SilentField(layout, states, packet, j, l, u)
    ensures Replay(PacketEvents(layout, states, packet), u, down) ==
            Replay(TargetEvents(layout, states, packet, i, k), u, down)
  {
    var at := Locate(layout, packet);
    if at.Ok? {
      var j, payload := at.value.0, at.value.1;
      LocatedIsCovered(layout, packet);
      var target := if j == i then k else |states[j]|;
      var lists := FieldLists(layout.reports[j], states[j], payload);
      forall l: nat | l < |states[j]| && l != target ensures Silent(lists(l), u) {
        assert SilentField(layout, states, packet, j, l, u);
      }
      EventsAreFlat(layout.reports[j], states[j], payload);
      FlatReplays(lists, |states[j]|, target, u, down);
    }
  }

  /** All that one field announced over a run, if there is such a field. */
  function TargetRun(layout: DeviceLayout, packets: seq<seq<u8>>, i: nat, k: nat): seq<Event>
    requires Sound(layout)
  {
    if IsField(layout, i, k) then FieldEventsRun(layout, packets, i, k) else []
  }

  /** Over a run a field said nothing of the key. */
  ghost predicate SilentRun(layout: DeviceLayout, packets: seq<seq<u8>>, j: nat, l: nat, u: Usage)
    requires Sound(layout) && IsField(layout, j, l)
  {
    Silent(FieldEventsRun(layout, packets, j, l), u)
  }

  lemma SilentRunEnds(layout: DeviceLayout, packets: seq<seq<u8>>, j: nat, l: nat, u: Usage)
    requires Sound(layout) && IsField(layout, j, l) && packets != [] && SilentRun(layout, packets, j, l, u)
    ensures var n := |packets| - 1;
            SilentRun(layout, packets[..n], j, l, u)
            && SilentField(layout, StatesRun(layout, packets[..n]), packets[n], j, l, u)
  {
    var n := |packets| - 1;
    SilentConcat(FieldEventsRun(layout, packets[..n], j, l),
                 FieldEvents(layout, StatesRun(layout, packets[..n]), packets[n], j, l), u);
  }

  lemma {:induction false} RunReplaysTarget(layout: DeviceLayout, packets: seq<seq<u8>>, i: nat, k: nat, u: Usage)
    requires Sound(layout)
    requires forall j: nat, l: nat :: IsField(layout, j, l) && (j != i || l != k) ==>
      SilentRun(layout, packets, j, l, u)
    ensures Replay(EventsRun(layout, packets), u, false) == Replay(TargetRun(layout, packets, i, k), u, false)
    decreases |packets|
  {
    if packets != [] {
      var n := |packets| - 1;
      var states := StatesRun(layout, packets[..n]);
      forall j: nat, l: nat | IsField(layout, j, l) && (j != i || l != k)
        ensures SilentRun(layout, packets[..n], j, l, u) && SilentField(layout, states, packets[n], j, l, u)
      {
        SilentRunEnds(layout, packets, j, l, u);
      }
      RunReplaysTarget(layout, packets[..n], i, k, u);
      var down := Replay(EventsRun(layout, packets[..n]), u, false);
      PacketReplays(layout, states, packets[n], i, k, u, down);
      ReplayConcat(EventsRun(layout, packets[..n]), PacketEvents(layout, states, packets[n]), u, false);
      ReplayConcat(TargetRun(layout, packets[..n], i, k), TargetEvents(layout, states, packets[n], i, k), u, false);
      if !IsField(layout, i, k) { assert TargetRun(layout, packets, i, k) == []; }
    }
  }

  // ---------------------------------------------------- fields that say nothing

  /** Some element or value of the field speaks of the key or holds it. */
  ghost predicate Concerns(f: InputField, u: Usage)
  {
    if f.flags.variable then exists i :: 0 <= i < f.count && StandsFor(f, i, u)
    else exists v :: Takes(f, v) && (Heard(f, v, u) || Holds(f, v, u))
  }

  lemma {:induction false} UnconcernedElements(f: InputField, s: FieldState, new': seq<int>, u: Usage, n: nat)
    requires Fits(f, s) && |new'| == f.count && n <= f.count && f.flags.variable && !Concerns(f, u) && Digital(u)
    ensures Silent(VariableEvents(f, s, new', n), u)
    decreases n
  {
    if n > 0 {
      UnconcernedElements(f, s, new', u, n - 1);
      assert !StandsFor(f, n - 1, u);
      OtherElementSays(f, s, u, n - 1, new'[n - 1]);
      SilentConcat(VariableEvents(f, s, new', n - 1), ElementEvents(f, s, n - 1, new'[n - 1]), u);
    }
  }

  predicate NoneHeard(f: InputField, values: seq<int>, u: Usage)
  {
    forall i :: 0 <= i < |values| ==> values[i] != 0 && !Heard(f, values[i], u)
  }

  lemma {:induction false} UnheardIsSilent(f: InputField, values: seq<int>, pressed: bool, u: Usage)
    requires f.defaultUsagePage == KEYBOARD_PAGE && NoneHeard(f, values, u)
    ensures Silent(Announce(f, values, pressed), u)
  {
    if values != [] {
      var n := |values| - 1;
      UnheardIsSilent(f, values[..n], pressed, u);
      KeySays(f, values[n], pressed, u);
      SilentConcat(Announce(f, values[..n], pressed), KeyEvents(f, values[n], pressed), u);
    }
  }

  lemma UnconcernedChanges(f: InputField, from: seq<int>, other: seq<int>, pressed: bool, u: Usage)
    requires f.defaultUsagePage == KEYBOARD_PAGE && !f.flags.variable && !Concerns(f, u) && AllTaken(f, from)
    ensures Silent(Announce(f, Changes(from, other, |from|), pressed), u)
  {
    var changes := Changes(from, other, |from|);
    forall i | 0 <= i < |changes| ensures changes[i] != 0 && !Heard(f, changes[i], u) {
      ChangesHold(from, other, changes[i]);
      assert Takes(f, changes[i]);
    }
    UnheardIsSilent(f, changes, pressed, u);
  }

  lemma UnconcernedStep(f: InputField, s: FieldState, new': seq<int>, u: Usage)
    requires Fits(f, s) && PossibleReading(f, new') && !Concerns(f, u) && Digital(u)
    requires !f.flags.variable ==> AllTaken(f, s.values)
    ensures Silent(Decode(f, s, new').1, u)
  {
    if f.flags.variable {
      UnconcernedElements(f, s, new', u, f.count);
    } else if f.defaultUsagePage == KEYBOARD_PAGE && !RollsOver(f, new') {
      UnconcernedChanges(f, s.values, new', false, u);
      UnconcernedChanges(f, new', s.values, true, u);
      SilentConcat(Announce(f, Changes(s.values, new', f.count), false),
                   Announce(f, Changes(new', s.values, f.count), true), u);
    }
  }

  lemma UnconcernedHolds(f: InputField, s: FieldState, u: Usage)
    requires Fits(f, s) && !Concerns(f, u) && (!f.flags.variable ==> AllTaken(f, s.values))
    ensures !Contributes(f, s, u)
  {
    forall i | 0 <= i < f.count ensures !ElementActive(f, s, u, i) {
      if f.flags.variable { assert !StandsFor(f, i, u); } else { assert Takes(f, s.values[i]); }
    }
  }

  lemma {:induction false} UnconcernedRun(f: InputField, readings: seq<seq<int>>, u: Usage)
    requires Sized(f) && CanArrive(f, readings) && AllFit(f, readings) && !Concerns(f, u) && Digital(u)
    ensures Silent(Run(f, readings).1, u) && !Contributes(f, Run(f, readings).0, u)
    decreases |readings|
  {
    if !f.flags.variable { RunTakes(f, readings); }
    UnconcernedHolds(f, Run(f, readings).0, u);
    if readings != [] {
      var n := |readings| - 1;
      UnconcernedRun(f, readings[..n], u);
      if !f.flags.variable { RunTakes(f, readings[..n]); }
      UnconcernedStep(f, Run(f, readings[..n]).0, readings[n], u);
      SilentConcat(Run(f, readings[..n]).1, Decode(f, Run(f, readings[..n]).0, readings[n]).1, u);
    }
  }

  // ------------------------------------------------------------- fields at rest

  predicate Resting(f: InputField, s: FieldState) { Fits(f, s) && s.values == AtRest(f) }

  lemma {:induction false} RestingElements(f: InputField, s: FieldState, u: Usage, n: nat)
    requires Resting(f, s) && n <= f.count && Digital(u)
    ensures Silent(VariableEvents(f, s, AtRest(f), n), u)
    decreases n
  {
    if n > 0 {
      RestingElements(f, s, u, n - 1);
      RestingElement(f, s, u, n - 1);
      SilentConcat(VariableEvents(f, s, AtRest(f), n - 1), ElementEvents(f, s, n - 1, 0), u);
    }
  }

  lemma RestingElement(f: InputField, s: FieldState, u: Usage, k: nat)
    requires Resting(f, s) && k < f.count && Digital(u)
    ensures Silent(ElementEvents(f, s, k, 0), u)
  {
  }

  lemma {:induction false} SameHasNoChanges(values: seq<int>, n: nat)
    requires n <= |values|
    ensures Changes(values, values, n) == []
    decreases n
  {
    if n > 0 { SameHasNoChanges(values, n - 1); }
  }

  lemma RestingStep(f: InputField, s: FieldState, u: Usage)
    requires Resting(f, s) && Digital(u)
    ensures Resting(f, Decode(f, s, AtRest(f)).0) && Silent(Decode(f, s, AtRest(f)).1, u)
  {
    if f.flags.variable { RestingElements(f, s, u, f.count); } else { SameHasNoChanges(AtRest(f), f.count); }
  }

  lemma {:induction false} RestingRun(f: InputField, readings: seq<seq<int>>, u: Usage)
    requires AllFit(f, readings) && AllAtRest(f, readings) && Digital(u)
    ensures Resting(f, Run(f, readings).0) && Silent(Run(f, readings).1, u) && !Contributes(f, Run(f, readings).0, u)
    decreases |readings|
  {
    if readings != [] {
      var n := |readings| - 1;
      RestingRun(f, readings[..n], u);
      RestingStep(f, Run(f, readings[..n]).0, u);
      SilentConcat(Run(f, readings[..n]).1, Decode(f, Run(f, readings[..n]).0, readings[n]).1, u);
    }
  }

  // ------------------------------------------------------- one field that matters

  /** Over a run a field neither spoke of the key nor holds it now. */
  ghost predicate Mute(layout: DeviceLayout, packets: seq<seq<u8>>, j: nat, l: nat, u: Usage)
    requires Sound(layout) && IsField(layout, j, l)
  {
    SilentRun(layout, packets, j, l, u) &&
    !Contributes(layout.reports[j].fields[l], StatesRun(layout, packets)[j][l], u)
  }

  lemma UnconcernedIsMute(layout: DeviceLayout, packets: seq<seq<u8>>, j: nat, l: nat, u: Usage)
    requires Sound(layout) && IsField(layout, j, l) && Digital(u) && !Concerns(layout.reports[j].fields[l], u)
    ensures Mute(layout, packets, j, l, u)
  {
    assert ReportSound(layout.reports[j], layout);
    FieldRunsAlone(layout, packets, j, l);
    SeenCanArrive(layout, packets, j, l);
    UnconcernedRun(layout.reports[j].fields[l], Seen(layout, packets, j, l), u);
  }

  lemma RestIsMute(layout: DeviceLayout, packets: seq<seq<u8>>, j: nat, l: nat, u: Usage)
    requires Sound(layout) && IsField(layout, j, l) && Digital(u) && RestAt(layout, packets, j, l)
    ensures Mute(layout, packets, j, l, u)
  {
    FieldRunsAlone(layout, packets, j, l);
    RestingRun(layout.reports[j].fields[l], Seen(layout, packets, j, l), u);
  }

  ghost predicate OthersMute(layout: DeviceLayout, packets: seq<seq<u8>>, i: nat, k: nat, u: Usage)
    requires Sound(layout)
  {
    forall j: nat, l: nat :: IsField(layout, j, l) && (j != i || l != k) ==> Mute(layout, packets, j, l, u)
  }

  lemma ActiveIsTarget(layout: DeviceLayout, packets: seq<seq<u8>>, i: nat, k: nat, u: Usage)
    requires Sound(layout) && Digital(u) && OthersMute(layout, packets, i, k, u)
    ensures Active(layout, StatesRun(layout, packets), u) <==>
      IsField(layout, i, k) && Contributes(layout.reports[i].fields[k], StatesRun(layout, packets)[i][k], u)
  {
    var states := StatesRun(layout, packets);
    forall j: nat, l: nat | IsField(layout, j, l) && (j != i || l != k)
      ensures !Contributes(layout.reports[j].fields[l], states[j][l], u)
    {
      assert Mute(layout, packets, j, l, u);
    }
    if Active(layout, states, u) {
      var j :| 0 <= j < |states| && ReportActive(layout.reports[j], states[j], u);
      var l :| 0 <= l < |states[j]| && Contributes(layout.reports[j].fields[l], states[j][l], u);
      assert IsField(layout, j, l);
    }
    if IsField(layout, i, k) && Contributes(layout.reports[i].fields[k], states[i][k], u) {
      assert ReportActive(layout.reports[i], states[i], u);
    }
  }

  /** If all other fields are mute, the listener is right exactly when it is right about
      that one field. */
  lemma OneFieldDecides(layout: DeviceLayout, packets: seq<seq<u8>>, i: nat, k: nat, u: Usage)
    requires Sound(layout) && Digital(u) && OthersMute(layout, packets, i, k, u)
    ensures ListenerRight(layout, packets, u) <==> IsField(layout, i, k) ==> ReplayMatches(layout, packets, i, k, u)
  {
    forall j: nat, l: nat | IsField(layout, j, l) && (j != i || l != k) ensures SilentRun(layout, packets, j, l, u) {
      assert Mute(layout, packets, j, l, u);
    }
    RunReplaysTarget(layout, packets, i, k, u);
    ActiveIsTarget(layout, packets, i, k, u);
  }
}
