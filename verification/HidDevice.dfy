/** For which keys a device's events tell the truth, all its fields taken together. */
module HidDevice {
  import opened HidDecode
  import opened HidDecoder
  import opened HidLayout
  import opened HidListener
  import opened HidPackets
  import opened HidReplay
  import opened HidTrust
  import opened Objects

  ghost predicate FieldConcerns(layout: DeviceLayout, i: nat, k: nat, u: Usage)
  {
    IsField(layout, i, k) && Concerns(layout.reports[i].fields[k], u)
  }

  /** Every field is trusted about the key, and no two of them speak of it. */
  ghost predicate DeviceTrusted(layout: DeviceLayout, u: Usage)
  {
    && (forall i: nat, k: nat :: IsField(layout, i, k) ==> Trusted(layout.reports[i].fields[k], u))
    && (forall i: nat, k: nat, j: nat, l: nat ::
          FieldConcerns(layout, i, k, u) && FieldConcerns(layout, j, l, u) ==> i == j && k == l)
  }

  // ------------------------------------------------------------------ sufficient

  lemma OthersAreMute(layout: DeviceLayout, packets: seq<seq<u8>>, i: nat, k: nat, u: Usage)
    requires Sound(layout) && Digital(u)
    requires forall j: nat, l: nat :: FieldConcerns(layout, j, l, u) ==> j == i && l == k
    ensures OthersMute(layout, packets, i, k, u)
  {
    forall j: nat, l: nat | IsField(layout, j, l) && (j != i || l != k) ensures Mute(layout, packets, j, l, u) {
      assert !FieldConcerns(layout, j, l, u);
      UnconcernedIsMute(layout, packets, j, l, u);
    }
  }

  lemma TrustedDeviceIsRight(layout: DeviceLayout, packets: seq<seq<u8>>, u: Usage)
    requires Sound(layout) && Digital(u) && DeviceTrusted(layout, u)
    ensures ListenerRight(layout, packets, u)
  {
    if i: nat, k: nat :| FieldConcerns(layout, i, k, u) {
      OthersAreMute(layout, packets, i, k, u);
      DecoderReplays(layout, packets, i, k, u);
      OneFieldDecides(layout, packets, i, k, u);
    } else {
      OthersAreMute(layout, packets, |layout.reports|, 0, u);
      OneFieldDecides(layout, packets, |layout.reports|, 0, u);
    }
  }

  // ------------------------------------------------------------- an unsound field

  lemma UntrustedFieldMisleads(layout: DeviceLayout, i: nat, k: nat, u: Usage) returns (packets: seq<seq<u8>>)
    requires Sound(layout) && IsField(layout, i, k) && Digital(u) && !Trusted(layout.reports[i].fields[k], u)
    ensures !ListenerRight(layout, packets, u)
  {
    var f := layout.reports[i].fields[k];
    assert ReportSound(layout.reports[i], layout);
    UntrustedReplaysWrongly(f, u);
    var readings :| CanArrive(f, readings) && !(AllFit(f, readings) && RightAfter(f, u, readings));
    packets := PacketsFor(layout, i, k, readings);
    MatchesIsRight(layout, packets, i, k, u);
    forall j: nat, l: nat | IsField(layout, j, l) && (j != i || l != k) ensures Mute(layout, packets, j, l, u) {
      assert RestAt(layout, packets, j, l);
      RestIsMute(layout, packets, j, l, u);
    }
    OneFieldDecides(layout, packets, i, k, u);
  }

  // ------------------------------------------------------- two fields for one key

  predicate Lights(f: InputField, value: int, u: Usage, index: nat)
  {
    if f.flags.variable then StandsFor(f, index, u) && value != 0 else Holds(f, value, u)
  }

  /** A reading that makes the key active. */
  predicate Lit(f: InputField, on: seq<int>, u: Usage)
  {
    && PossibleReading(f, on) && (f.flags.variable || !RollsOver(f, on))
    && exists n: nat :: n < |on| && Lights(f, on[n], u, n)
  }

  lemma LitContributes(f: InputField, s: FieldState, on: seq<int>, u: Usage)
    requires Fits(f, s) && Lit(f, on, u)
    ensures Decode(f, s, on).0.values == on && Contributes(f, Decode(f, s, on).0, u)
  {
    var n: nat :| n < |on| && Lights(f, on[n], u, n);
    assert ElementActive(f, Decode(f, s, on).0, u, n);
  }

  /** A trusted field that speaks of the key can make it active. */
  lemma CanLight(f: InputField, u: Usage) returns (on: seq<int>)
    requires Sized(f) && Digital(u) && Trusted(f, u) && Concerns(f, u)
    ensures Lit(f, on, u)
  {
    SomeValueIsPossible(f);
    if f.flags.variable {
      var n :| 0 <= n < f.count && StandsFor(f, n, u);
      on := seq(f.count, _ => SomeValue(f));
      assert Lights(f, on[n], u, n);
    } else {
      var v :| Takes(f, v) && (Heard(f, v, u) || Holds(f, v, u));
      on := OnlyThese(f, v, 0);
      OnlyTheseCanArrive(f, v, 0);
      assert on[0] == v && Lights(f, on[0], u, 0);
    }
  }

  lemma RestIsDark(f: InputField, s: FieldState, u: Usage)
    requires Fits(f, s)
    ensures !Contributes(f, Decode(f, s, AtRest(f)).0, u)
  {
  }

  /** Going back to rest is heard as a release. */
  lemma TurningOff(f: InputField, on: seq<int>, u: Usage, down: bool)
    requires Sized(f) && Digital(u) && Trusted(f, u) && Lit(f, on, u)
    ensures !Replay(Decode(f, Run(f, [on]).0, AtRest(f)).1, u, down)
  {
    var s := Run(f, [on]).0;
    RunOne(f, on);
    LitContributes(f, NewState(f), on, u);
    RestIsPossible(f);
    StepReplays(f, [on], AtRest(f), u);
    RestIsDark(f, s, u);
    ReplayForgets(Decode(f, s, AtRest(f)).1, u, down);
  }

  lemma {:induction false} RepeatedElements(f: InputField, s: FieldState, u: Usage, n: nat)
    requires Fits(f, s) && n <= f.count && Digital(u) && !f.flags.relative
    ensures Silent(VariableEvents(f, s, s.values, n), u)
    decreases n
  {
    if n > 0 {
      RepeatedElements(f, s, u, n - 1);
      RepeatedElement(f, s, u, n - 1);
      SilentConcat(VariableEvents(f, s, s.values, n - 1), ElementEvents(f, s, n - 1, s.values[n - 1]), u);
    }
  }

  lemma RepeatedElement(f: InputField, s: FieldState, u: Usage, k: nat)
    requires Fits(f, s) && k < f.count && Digital(u) && !f.flags.relative
    ensures Silent(ElementEvents(f, s, k, s.values[k]), u)
  {
  }

  /** Reading the same again is not announced. */
  lemma RepeatIsSilent(f: InputField, s: FieldState, u: Usage)
    requires Fits(f, s) && Digital(u) && (f.flags.variable ==> !f.flags.relative)
    ensures Silent(Decode(f, s, s.values).1, u)
  {
    if f.flags.variable { RepeatedElements(f, s, u, f.count); } else { SameHasNoChanges(s.values, f.count); }
  }

  /** Everything at rest except two fields of one report. */
  function TwoFields(r: ReportLayout, k: nat, a: seq<int>, l: nat, b: seq<int>): (all: seq<seq<int>>)
    requires k < |r.fields| && l < |r.fields| && k != l
    ensures |all| == |r.fields| && all[k] == a && all[l] == b
    ensures forall m :: 0 <= m < |all| && m != k && m != l ==> all[m] == AtRest(r.fields[m])
  {
    OnlyField(r, k, a)[l := b]
  }

  /** All fields but these two have only ever been at rest. */
  ghost predicate TwoStir(layout: DeviceLayout, packets: seq<seq<u8>>, i: nat, k: nat, j: nat, l: nat)
    requires Sound(layout)
  {
    forall x: nat, y: nat :: IsField(layout, x, y) && (x != i || y != k) && (x != j || y != l) ==>
      RestAt(layout, packets, x, y)
  }

  /** Packets after which both fields hold what they should. */
  lemma BothOn(layout: DeviceLayout, i: nat, k: nat, a: seq<int>, j: nat, l: nat, b: seq<int>)
    returns (packets: seq<seq<u8>>)
    requires Sound(layout) && IsField(layout, i, k) && IsField(layout, j, l) && (i != j || k != l)
    requires PossibleReading(layout.reports[i].fields[k], a) && PossibleReading(layout.reports[j].fields[l], b)
    ensures Seen(layout, packets, i, k) == [a] && Seen(layout, packets, j, l) == [b]
    ensures TwoStir(layout, packets, i, k, j, l)
  {
    if i == j {
      packets := BothOnAtOnce(layout, i, k, a, l, b);
    } else {
      packets := BothOnInTurn(layout, i, k, a, j, l, b);
    }
  }

  lemma SeenOnce(layout: DeviceLayout, packet: seq<u8>, x: nat, y: nat, values: seq<seq<int>>)
    requires Sound(layout) && IsField(layout, x, y) && Locate(layout, packet).Ok?
    requires ReadsAs(layout.reports[Locate(layout, packet).value.0], Locate(layout, packet).value.1, values)
    ensures Seen(layout, [packet], x, y) == if Locate(layout, packet).value.0 == x then [values[y]] else []
  {
    SeenNext(layout, [], packet, x, y, values);
    assert [] + [packet] == [packet];
  }

  lemma PacketForTwo(layout: DeviceLayout, i: nat, k: nat, a: seq<int>, l: nat, b: seq<int>) returns (packet: seq<u8>)
    requires Sound(layout) && IsField(layout, i, k) && IsField(layout, i, l) && k != l
    requires PossibleReading(layout.reports[i].fields[k], a) && PossibleReading(layout.reports[i].fields[l], b)
    ensures Locate(layout, packet).Ok? && Locate(layout, packet).value.0 == i
    ensures ReadsAs(layout.reports[i], Locate(layout, packet).value.1, TwoFields(layout.reports[i], k, a, l, b))
  {
    var r := layout.reports[i];
    var values := TwoFields(r, k, a, l, b);
    assert ReportSound(r, layout);
    forall m | 0 <= m < |r.fields| ensures PossibleReading(r.fields[m], values[m]) { RestIsPossible(r.fields[m]); }
    packet := PacketForAll(layout, i, values);
  }

  lemma BothOnAtOnce(layout: DeviceLayout, i: nat, k: nat, a: seq<int>, l: nat, b: seq<int>)
    returns (packets: seq<seq<u8>>)
    requires Sound(layout) && IsField(layout, i, k) && IsField(layout, i, l) && k != l
    requires PossibleReading(layout.reports[i].fields[k], a) && PossibleReading(layout.reports[i].fields[l], b)
    ensures Seen(layout, packets, i, k) == [a] && Seen(layout, packets, i, l) == [b]
    ensures TwoStir(layout, packets, i, k, i, l)
  {
    var values := TwoFields(layout.reports[i], k, a, l, b);
    var packet := PacketForTwo(layout, i, k, a, l, b);
    packets := [packet];
    forall x: nat, y: nat | IsField(layout, x, y)
      ensures Seen(layout, packets, x, y) == if x == i then [values[y]] else []
    {
      SeenOnce(layout, packet, x, y, values);
    }
    forall x: nat, y: nat | IsField(layout, x, y) && (x != i || (y != k && y != l))
      ensures RestAt(layout, packets, x, y)
    {
      assert Seen(layout, packets, x, y) == if x == i then [values[y]] else [];
    }
  }

  lemma OneOn(layout: DeviceLayout, i: nat, k: nat, a: seq<int>) returns (packets: seq<seq<u8>>)
    requires Sound(layout) && IsField(layout, i, k) && PossibleReading(layout.reports[i].fields[k], a)
    ensures Seen(layout, packets, i, k) == [a] && OthersAtRest(layout, packets, i, k)
    ensures forall x: nat, y: nat :: IsField(layout, x, y) && x != i ==> Seen(layout, packets, x, y) == []
  {
    var packet := PacketFor(layout, i, k, a);
    var values := OnlyField(layout.reports[i], k, a);
    packets := [packet];
    forall x: nat, y: nat | IsField(layout, x, y)
      ensures Seen(layout, packets, x, y) == if x == i then [values[y]] else []
    {
      SeenOnce(layout, packet, x, y, values);
    }
  }

  lemma BothOnInTurn(layout: DeviceLayout, i: nat, k: nat, a: seq<int>, j: nat, l: nat, b: seq<int>)
    returns (packets: seq<seq<u8>>)
    requires Sound(layout) && IsField(layout, i, k) && IsField(layout, j, l) && i != j
    requires PossibleReading(layout.reports[i].fields[k], a) && PossibleReading(layout.reports[j].fields[l], b)
    ensures Seen(layout, packets, i, k) == [a] && Seen(layout, packets, j, l) == [b]
    ensures TwoStir(layout, packets, i, k, j, l)
  {
    var one := OneOn(layout, i, k, a);
    var packet := PacketFor(layout, j, l, b);
    var values := OnlyField(layout.reports[j], l, b);
    packets := one + [packet];
    SeenNext(layout, one, packet, i, k, values);
    SeenNext(layout, one, packet, j, l, values);
    forall x: nat, y: nat | IsField(layout, x, y) && (x != i || y != k) && (x != j || y != l)
      ensures RestAt(layout, packets, x, y)
    {
      RestNext(layout, one, packet, x, y, values);
    }
  }

  /** The last packet: the second field goes back to rest, the first keeps its reading. */
  function LastValues(layout: DeviceLayout, i: nat, k: nat, a: seq<int>, j: nat, l: nat): (all: seq<seq<int>>)
    requires IsField(layout, i, k) && IsField(layout, j, l) && (i != j || k != l)
    ensures |all| == |layout.reports[j].fields| && all[l] == AtRest(layout.reports[j].fields[l])
    ensures i == j ==> all[k] == a
    ensures forall m :: 0 <= m < |all| && (i != j || m != k) ==> all[m] == AtRest(layout.reports[j].fields[m])
  {
    if i == j then OnlyField(layout.reports[j], k, a)
    else OnlyField(layout.reports[j], l, AtRest(layout.reports[j].fields[l]))
  }

  lemma LastPacket(layout: DeviceLayout, i: nat, k: nat, a: seq<int>, j: nat, l: nat) returns (packet: seq<u8>)
    requires Sound(layout) && IsField(layout, i, k) && IsField(layout, j, l) && (i != j || k != l)
    requires PossibleReading(layout.reports[i].fields[k], a)
    ensures Locate(layout, packet).Ok? && Locate(layout, packet).value.0 == j
    ensures ReadsAs(layout.reports[j], Locate(layout, packet).value.1, LastValues(layout, i, k, a, j, l))
  {
    var r := layout.reports[j];
    assert ReportSound(r, layout);
    forall m | 0 <= m < |r.fields| ensures PossibleReading(r.fields[m], LastValues(layout, i, k, a, j, l)[m]) {
      RestIsPossible(r.fields[m]);
    }
    packet := PacketForAll(layout, j, LastValues(layout, i, k, a, j, l));
  }

  /** What a field announces on a packet that reads as given. */
  lemma FieldEventsAre(
    layout: DeviceLayout, packets: seq<seq<u8>>, packet: seq<u8>, x: nat, y: nat, values: seq<seq<int>>)
    requires Sound(layout) && IsField(layout, x, y) && Locate(layout, packet).Ok?
    requires ReadsAs(layout.reports[Locate(layout, packet).value.0], Locate(layout, packet).value.1, values)
    ensures Locate(layout, packet).value.0 != x ==> FieldEvents(layout, StatesRun(layout, packets), packet, x, y) == []
    ensures Locate(layout, packet).value.0 == x ==>
      FieldEvents(layout, StatesRun(layout, packets), packet, x, y) ==
      Decode(layout.reports[x].fields[y], StatesRun(layout, packets)[x][y], values[y]).1
  {
  }

  /** The field that keeps its reading says nothing. */
  lemma StayingIsSilent(
    layout: DeviceLayout, packets: seq<seq<u8>>, last: seq<u8>, i: nat, k: nat, a: seq<int>, j: nat, l: nat, u: Usage)
    requires Sound(layout) && IsField(layout, i, k) && IsField(layout, j, l) && (i != j || k != l) && Digital(u)
    requires Trusted(layout.reports[i].fields[k], u) && Lit(layout.reports[i].fields[k], a, u)
    requires Seen(layout, packets, i, k) == [a]
    requires Locate(layout, last).Ok? && Locate(layout, last).value.0 == j
    requires ReadsAs(layout.reports[j], Locate(layout, last).value.1, LastValues(layout, i, k, a, j, l))
    ensures SilentField(layout, StatesRun(layout, packets), last, i, k, u)
  {
    var f := layout.reports[i].fields[k];
    FieldEventsAre(layout, packets, last, i, k, LastValues(layout, i, k, a, j, l));
    if i == j {
      FieldRunsAlone(layout, packets, i, k);
      RunOne(f, a);
      LitContributes(f, NewState(f), a, u);
      if f.flags.variable { LitIsAbsolute(f, a, u); }
      RepeatIsSilent(f, StatesRun(layout, packets)[i][k], u);
    }
  }

  lemma LitIsAbsolute(f: InputField, on: seq<int>, u: Usage)
    requires f.flags.variable && Trusted(f, u) && Lit(f, on, u)
    ensures !f.flags.relative
  {
    var n: nat :| n < |on| && Lights(f, on[n], u, n);
    assert StandsFor(f, n, u);
  }

  /** So do all the fields that have only ever been at rest. */
  lemma RestingIsSilent(
    layout: DeviceLayout, packets: seq<seq<u8>>, last: seq<u8>, x: nat, y: nat, values: seq<seq<int>>, u: Usage)
    requires Sound(layout) && IsField(layout, x, y) && Digital(u) && RestAt(layout, packets, x, y)
    requires Locate(layout, last).Ok?
    requires ReadsAs(layout.reports[Locate(layout, last).value.0], Locate(layout, last).value.1, values)
    requires Locate(layout, last).value.0 == x ==> values[y] == AtRest(layout.reports[x].fields[y])
    ensures SilentField(layout, StatesRun(layout, packets), last, x, y, u)
  {
    var f := layout.reports[x].fields[y];
    FieldEventsAre(layout, packets, last, x, y, values);
    FieldRunsAlone(layout, packets, x, y);
    RestingRun(f, Seen(layout, packets, x, y), u);
    RestingStep(f, StatesRun(layout, packets)[x][y], u);
  }

  lemma LitTwice(f: InputField, on: seq<int>, u: Usage)
    requires Lit(f, on, u)
    ensures Contributes(f, Run(f, [on]).0, u) && Contributes(f, Run(f, [on] + [on]).0, u)
  {
    RunOne(f, on);
    LitContributes(f, NewState(f), on, u);
    assert ([on] + [on])[..1] == [on];
    LitContributes(f, Run(f, [on]).0, on, u);
  }

  /** The first field still holds the key at the end. */
  lemma StayingContributes(
    layout: DeviceLayout, packets: seq<seq<u8>>, last: seq<u8>, i: nat, k: nat, a: seq<int>, j: nat, l: nat, u: Usage)
    requires Sound(layout) && IsField(layout, i, k) && IsField(layout, j, l) && (i != j || k != l)
    requires Lit(layout.reports[i].fields[k], a, u) && Seen(layout, packets, i, k) == [a]
    requires Locate(layout, last).Ok? && Locate(layout, last).value.0 == j
    requires ReadsAs(layout.reports[j], Locate(layout, last).value.1, LastValues(layout, i, k, a, j, l))
    ensures Contributes(layout.reports[i].fields[k], StatesRun(layout, packets + [last])[i][k], u)
  {
    SeenNext(layout, packets, last, i, k, LastValues(layout, i, k, a, j, l));
    FieldRunsAlone(layout, packets + [last], i, k);
    LitTwice(layout.reports[i].fields[k], a, u);
  }

  lemma LastSaysReleased(
    layout: DeviceLayout, packets: seq<seq<u8>>, last: seq<u8>, j: nat, l: nat, b: seq<int>, u: Usage, down: bool)
    requires Sound(layout) && IsField(layout, j, l) && Digital(u) && Trusted(layout.reports[j].fields[l], u)
    requires Lit(layout.reports[j].fields[l], b, u) && Seen(layout, packets, j, l) == [b]
    requires FieldEvents(layout, StatesRun(layout, packets), last, j, l) ==
      Decode(layout.reports[j].fields[l], StatesRun(layout, packets)[j][l], AtRest(layout.reports[j].fields[l])).1
    requires forall x: nat, y: nat :: IsField(layout, x, y) && (x != j || y != l) ==>
      SilentField(layout, StatesRun(layout, packets), last, x, y, u)
    ensures !Replay(PacketEvents(layout, StatesRun(layout, packets), last), u, down)
  {
    assert ReportSound(layout.reports[j], layout);
    PacketReplays(layout, StatesRun(layout, packets), last, j, l, u, down);
    FieldRunsAlone(layout, packets, j, l);
    TurningOff(layout.reports[j].fields[l], b, u, down);
  }

  /** Both fields hold the key, then one lets go: the listener hears a release although the
      other still holds it. */
  lemma TwoFieldsMislead(layout: DeviceLayout, i: nat, k: nat, j: nat, l: nat, u: Usage) returns (packets: seq<seq<u8>>)
    requires Sound(layout) && Digital(u) && FieldConcerns(layout, i, k, u) && FieldConcerns(layout, j, l, u)
    requires (i != j || k != l) && Trusted(layout.reports[i].fields[k], u) && Trusted(layout.reports[j].fields[l], u)
    ensures !ListenerRight(layout, packets, u)
  {
    var f, g := layout.reports[i].fields[k], layout.reports[j].fields[l];
    assert ReportSound(layout.reports[i], layout) && ReportSound(layout.reports[j], layout);
    var a := CanLight(f, u);
    var b := CanLight(g, u);
    var before := BothOn(layout, i, k, a, j, l, b);
    var last := LastPacket(layout, i, k, a, j, l);
    var values := LastValues(layout, i, k, a, j, l);
    packets := before + [last];
    forall x: nat, y: nat | IsField(layout, x, y) && (x != j || y != l)
      ensures SilentField(layout, StatesRun(layout, before), last, x, y, u)
    {
      if x == i && y == k {
        StayingIsSilent(layout, before, last, i, k, a, j, l, u);
      } else {
        assert RestAt(layout, before, x, y);
        RestingIsSilent(layout, before, last, x, y, values, u);
      }
    }
    FieldEventsAre(layout, before, last, j, l, values);
    StayingContributes(layout, before, last, i, k, a, j, l, u);
    EndsWrong(layout, before, last, i, k, j, l, b, u);
  }

  lemma EndsWrong(
    layout: DeviceLayout, packets: seq<seq<u8>>, last: seq<u8>, i: nat, k: nat, j: nat, l: nat, b: seq<int>, u: Usage)
    requires Sound(layout) && IsField(layout, i, k) && IsField(layout, j, l) && Digital(u)
    requires Trusted(layout.reports[j].fields[l], u) && Lit(layout.reports[j].fields[l], b, u)
    requires Seen(layout, packets, j, l) == [b]
    requires FieldEvents(layout, StatesRun(layout, packets), last, j, l) ==
      Decode(layout.reports[j].fields[l], StatesRun(layout, packets)[j][l], AtRest(layout.reports[j].fields[l])).1
    requires forall x: nat, y: nat :: IsField(layout, x, y) && (x != j || y != l) ==>
      SilentField(layout, StatesRun(layout, packets), last, x, y, u)
    requires Contributes(layout.reports[i].fields[k], StatesRun(layout, packets + [last])[i][k], u)
    ensures !ListenerRight(layout, packets + [last], u)
  {
    var down := Replay(EventsRun(layout, packets), u, false);
    LastSaysReleased(layout, packets, last, j, l, b, u, down);
    assert (packets + [last])[..|packets|] == packets;
    ReplayConcat(EventsRun(layout, packets), PacketEvents(layout, StatesRun(layout, packets), last), u, false);
    var states := StatesRun(layout, packets + [last]);
    assert ReportActive(layout.reports[i], states[i], u);
  }

  // ----------------------------------------------------------------------- exactly

  lemma UntrustedDeviceMisleads(layout: DeviceLayout, u: Usage) returns (packets: seq<seq<u8>>)
    requires Sound(layout) && Digital(u) && !DeviceTrusted(layout, u)
    ensures !ListenerRight(layout, packets, u)
  {
    if i: nat, k: nat :| IsField(layout, i, k) && !Trusted(layout.reports[i].fields[k], u) {
      packets := UntrustedFieldMisleads(layout, i, k, u);
    } else {
      var i: nat, k: nat, j: nat, l: nat :|
        FieldConcerns(layout, i, k, u) && FieldConcerns(layout, j, l, u) && !(i == j && k == l);
      packets := TwoFieldsMislead(layout, i, k, j, l, u);
    }
  }

  /** Over all packets, a listener that hears every event agrees with the decoder about a
      key exactly when each field is trusted about it and at most one speaks of it. */
  lemma ListenerIsRightExactly(layout: DeviceLayout, u: Usage)
    requires Sound(layout) && Digital(u)
    ensures DeviceTrusted(layout, u) <==> forall packets :: ListenerRight(layout, packets, u)
  {
    if DeviceTrusted(layout, u) {
      forall packets ensures ListenerRight(layout, packets, u) { TrustedDeviceIsRight(layout, packets, u); }
    } else {
      var packets := UntrustedDeviceMisleads(layout, u);
    }
  }

  // -------------------------------------------------------- read off the description

  /** The field can announce the key, as far as it is trusted about it. */
  predicate Speaks(f: InputField, u: Usage)
  {
    if f.flags.variable then exists i :: 0 <= i < f.count && StandsFor(f, i, u)
    else
      && KeyboardKey(f, u) && Admitted(f, u)
      && ((0 < u.id < Top(f) && !IsErrorUsage(u.id)) || Long(KEYBOARD_PAGE, u.id) < Top(f))
  }

  /** Decided from the layout alone. */
  predicate DeviceTrustworthy(layout: DeviceLayout, u: Usage)
  {
    && (forall i :: 0 <= i < |layout.reports| ==>
          forall k :: 0 <= k < |layout.reports[i].fields| ==> Trustworthy(layout.reports[i].fields[k], u))
    && (forall i, j :: 0 <= i < |layout.reports| && 0 <= j < |layout.reports| ==>
          forall k, l :: 0 <= k < |layout.reports[i].fields| && 0 <= l < |layout.reports[j].fields| ==>
            Speaks(layout.reports[i].fields[k], u) && Speaks(layout.reports[j].fields[l], u) ==> i == j && k == l)
  }

  lemma SpeakingConcerns(f: InputField, u: Usage)
    requires Sized(f) && !f.flags.variable && u.id < WORD && Speaks(f, u)
    ensures Concerns(f, u)
  {
    var short := 0 < u.id < Top(f) && !IsErrorUsage(u.id);
    var v := if short then u.id else Long(KEYBOARD_PAGE, u.id);
    PossibleRange(f, v);
    if short { ShortUsage(f, v); } else { LongUsage(f, KEYBOARD_PAGE, u.id, v); }
    assert Takes(f, v) && Heard(f, v, u);
  }

  lemma ConcernedSpeaks(f: InputField, u: Usage)
    requires Sized(f) && !f.flags.variable && Digital(u) && u.id < WORD && Clear(f, u) && Concerns(f, u)
    ensures Speaks(f, u)
  {
    ClearIsUnambiguous(f, u);
    var v :| Takes(f, v) && (Heard(f, v, u) || Holds(f, v, u));
    assert Heard(f, v, u) == Holds(f, v, u);
    HeardHolds(f, u, v);
    PossibleRange(f, v);
  }

  lemma SpeaksIsConcerned(f: InputField, u: Usage)
    requires Sized(f) && Digital(u) && u.id < WORD && Trustworthy(f, u)
    ensures Speaks(f, u) <==> Concerns(f, u)
  {
    if !f.flags.variable {
      if Speaks(f, u) { SpeakingConcerns(f, u); }
      if Concerns(f, u) { ConcernedSpeaks(f, u); }
    }
  }

  lemma FieldTest(layout: DeviceLayout, i: nat, k: nat, u: Usage)
    requires Sound(layout) && Digital(u) && u.id < WORD && IsField(layout, i, k)
    ensures Trustworthy(layout.reports[i].fields[k], u) <==> Trusted(layout.reports[i].fields[k], u)
    ensures Trustworthy(layout.reports[i].fields[k], u) ==>
      (Speaks(layout.reports[i].fields[k], u) <==> FieldConcerns(layout, i, k, u))
  {
    var f := layout.reports[i].fields[k];
    assert ReportSound(layout.reports[i], layout);
    TrustworthyIsRight(f, u);
    if Trustworthy(f, u) { SpeaksIsConcerned(f, u); }
  }

  /** The test on the layout decides whether a listener can be misled about a key. */
  lemma DeviceTestIsExact(layout: DeviceLayout, u: Usage)
    requires Sound(layout) && Digital(u) && u.id < WORD
    ensures DeviceTrustworthy(layout, u) <==> forall packets :: ListenerRight(layout, packets, u)
  {
    forall i: nat, k: nat | IsField(layout, i, k)
      ensures Trustworthy(layout.reports[i].fields[k], u) <==> Trusted(layout.reports[i].fields[k], u)
      ensures Trustworthy(layout.reports[i].fields[k], u) ==>
        (Speaks(layout.reports[i].fields[k], u) <==> FieldConcerns(layout, i, k, u))
    {
      FieldTest(layout, i, k, u);
    }
    TestsAgree(layout, u);
    ListenerIsRightExactly(layout, u);
  }

  lemma TestsAgree(layout: DeviceLayout, u: Usage)
    requires forall i: nat, k: nat :: IsField(layout, i, k) ==>
      (Trustworthy(layout.reports[i].fields[k], u) <==> Trusted(layout.reports[i].fields[k], u)) &&
      (Trustworthy(layout.reports[i].fields[k], u) ==>
         (Speaks(layout.reports[i].fields[k], u) <==> FieldConcerns(layout, i, k, u)))
    ensures DeviceTrustworthy(layout, u) <==> DeviceTrusted(layout, u)
  {
    if DeviceTrustworthy(layout, u) {
      assert forall i: nat, k: nat :: IsField(layout, i, k) ==> Trusted(layout.reports[i].fields[k], u);
    }
    if DeviceTrusted(layout, u) {
      assert forall i: nat, k: nat :: IsField(layout, i, k) ==> Trustworthy(layout.reports[i].fields[k], u);
      forall i: nat, j: nat, k: nat, l: nat |
        IsField(layout, i, k) && IsField(layout, j, l) &&
        Speaks(layout.reports[i].fields[k], u) && Speaks(layout.reports[j].fields[l], u)
        ensures i == j && k == l
      {
        assert FieldConcerns(layout, i, k, u) && FieldConcerns(layout, j, l, u);
      }
    }
  }
}
