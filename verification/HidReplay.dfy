/** Whether a listener that replays a field's events knows which keys the field holds. */
module HidReplay {
  import opened Bits
  import opened HidDecode
  import opened HidLayout
  import opened HidValues
  import opened LittleEndian
  import opened Objects

  // ----------------------------------------------------------- possible values

  predicate Sized(f: InputField) { 1 <= f.bitSize <= 32 && 1 <= f.count }

  /** The values that so many bits can stand for. */
  predicate Possible(f: InputField, v: int)
  {
    if f.logicalMin >= 0 then 0 <= v < Pow2(f.bitSize)
    else f.bitSize >= 1 && 0 <= v + Pow2(f.bitSize - 1) < Pow2(f.bitSize)
  }

  predicate PossibleReading(f: InputField, values: seq<int>)
  {
    |values| == f.count && forall i :: 0 <= i < |values| ==> Possible(f, values[i])
  }

  lemma PayloadsArePossible(f: InputField, payload: seq<u8>)
    requires Covers(f, payload)
    ensures PossibleReading(f, Readings(f, payload))
  {
    forall i | 0 <= i < f.count ensures Possible(f, Readings(f, payload)[i]) {
      var raw := Extract(FromBytes(payload), f.bitOffset + i * f.bitSize, f.bitSize);
      LogicalValueIsSigned(raw, f.bitSize, f.logicalMin);
      assert Pow2(f.bitSize) == 2 * Pow2(f.bitSize - 1);
    }
  }

  /** Zero is always possible, and so is something else. */
  function SomeValue(f: InputField): int { if f.logicalMin >= 0 then 1 else -1 }

  lemma SomeValueIsPossible(f: InputField)
    requires Sized(f)
    ensures Possible(f, 0) && Possible(f, SomeValue(f)) && SomeValue(f) != 0
  {
    assert Pow2(f.bitSize) == 2 * Pow2(f.bitSize - 1);
  }

  // --------------------------------------------------------------------- runs

  predicate AllFit(f: InputField, readings: seq<seq<int>>)
  {
    forall k :: 0 <= k < |readings| ==> |readings[k]| == f.count
  }

  /** The state a field is left in by a sequence of readings, and all its events. */
  function Run(f: InputField, readings: seq<seq<int>>): (r: (FieldState, seq<Event>))
    requires AllFit(f, readings)
    ensures Fits(f, r.0)
    decreases |readings|
  {
    if readings == [] then (NewState(f), [])
    else
      var n := |readings| - 1;
      var before := Run(f, readings[..n]);
      var after := Decode(f, before.0, readings[n]);
      (after.0, before.1 + after.1)
  }

  /** The listener ends up right about `u` after these readings. */
  ghost predicate RightAfter(f: InputField, u: Usage, readings: seq<seq<int>>)
    requires AllFit(f, readings)
  {
    Replay(Run(f, readings).1, u, false) == Contributes(f, Run(f, readings).0, u)
  }

  predicate CanArrive(f: InputField, readings: seq<seq<int>>)
  {
    forall k :: 0 <= k < |readings| ==> PossibleReading(f, readings[k])
  }

  /** Whatever a field reads, the listener is right about `u`. */
  ghost predicate AlwaysRight(f: InputField, u: Usage)
  {
    forall readings :: CanArrive(f, readings) ==> AllFit(f, readings) && RightAfter(f, u, readings)
  }

  lemma RunOne(f: InputField, a: seq<int>)
    requires |a| == f.count
    ensures Run(f, [a]) == Decode(f, NewState(f), a)
  {
    assert [a][..0] == [];
    assert Run(f, [a]).1 == Decode(f, NewState(f), a).1;
  }

  lemma RunTwo(f: InputField, a: seq<int>, b: seq<int>, u: Usage)
    requires |a| == |b| == f.count
    ensures Run(f, [a, b]).0 == Decode(f, Decode(f, NewState(f), a).0, b).0
    ensures Replay(Run(f, [a, b]).1, u, false) ==
            Replay(Decode(f, Decode(f, NewState(f), a).0, b).1, u, Replay(Decode(f, NewState(f), a).1, u, false))
  {
    assert [a, b][..1] == [a];
    RunOne(f, a);
    ReplayConcat(Run(f, [a]).1, Decode(f, Run(f, [a]).0, b).1, u, false);
  }

  lemma WrongOnce(f: InputField, u: Usage, readings: seq<seq<int>>)
    requires CanArrive(f, readings) && AllFit(f, readings) && !RightAfter(f, u, readings)
    ensures !AlwaysRight(f, u)
  {
  }

  /** Two readings that mislead the listener. */
  lemma WrongTwice(f: InputField, u: Usage, a: seq<int>, b: seq<int>)
    requires PossibleReading(f, a) && PossibleReading(f, b)
    requires var s := Decode(f, NewState(f), a);
             var t := Decode(f, s.0, b);
             Replay(t.1, u, Replay(s.1, u, false)) != Contributes(f, t.0, u)
    ensures !AlwaysRight(f, u)
  {
    RunTwo(f, a, b, u);
    BothArrive(f, a, b);
    WrongOnce(f, u, [a, b]);
  }

  lemma BothArrive(f: InputField, a: seq<int>, b: seq<int>)
    requires PossibleReading(f, a) && PossibleReading(f, b)
    ensures CanArrive(f, [a, b]) && AllFit(f, [a, b])
  {
  }

  // ---------------------------------------------------------- variable fields

  predicate NoZero(values: seq<int>) { forall i :: 0 <= i < |values| ==> values[i] != 0 }

  predicate StandsFor(f: InputField, i: nat, u: Usage) { UsageForElement(f, i) == Some(u) }

  lemma OtherElementSays(f: InputField, s: FieldState, u: Usage, k: nat, v: int)
    requires Fits(f, s) && Digital(u) && k < f.count && !StandsFor(f, k, u)
    ensures Silent(ElementEvents(f, s, k, v), u)
  {
  }

  /** Elements that stand for other keys say nothing about this one. */
  lemma OthersAreSilent(f: InputField, s: FieldState, new': seq<int>, u: Usage, down: bool)
    requires Fits(f, s) && |new'| == f.count && Digital(u)
    requires forall i :: 0 <= i < f.count ==> !StandsFor(f, i, u)
    ensures Replay(VariableEvents(f, s, new', f.count), u, down) == down
  {
    forall l: nat | l < f.count ensures Silent(ElementEvents(f, s, l, new'[l]), u) {
      OtherElementSays(f, s, u, l, new'[l]);
    }
    OneElementSpeaks(f, s, new', u, f.count, down);
  }

  lemma UnusedStepReplays(f: InputField, s: FieldState, new': seq<int>, u: Usage)
    requires Fits(f, s) && |new'| == f.count && f.flags.variable && Digital(u)
    requires forall i :: 0 <= i < f.count ==> !StandsFor(f, i, u)
    ensures Replay(Decode(f, s, new').1, u, Contributes(f, s, u)) == Contributes(f, Decode(f, s, new').0, u)
  {
    OthersAreSilent(f, s, new', u, Contributes(f, s, u));
    if i :| 0 <= i < f.count && ElementActive(f, s, u, i) { assert StandsFor(f, i, u); }
    var after := Decode(f, s, new').0;
    if i :| 0 <= i < f.count && ElementActive(f, after, u, i) { assert StandsFor(f, i, u); }
  }

  /** A relative element only ever announces presses. */
  lemma RelativeElementSays(f: InputField, s: FieldState, u: Usage, k: nat, v: int)
    requires Fits(f, s) && f.flags.relative && Digital(u) && v != 0 && k < f.count
    ensures |ElementEvents(f, s, k, v)| <= 1
    ensures StandsFor(f, k, u) ==> ElementEvents(f, s, k, v) != []
    ensures ElementEvents(f, s, k, v) != [] ==>
      Says(ElementEvents(f, s, k, v)[0], u) == if StandsFor(f, k, u) then Some(true) else None
  {
  }

  lemma {:induction false} RelativePresses(f: InputField, s: FieldState, new': seq<int>, u: Usage, i: nat, n: nat)
    requires Fits(f, s) && f.flags.relative && Digital(u) && i < n <= f.count && StandsFor(f, i, u)
    requires |new'| == f.count && NoZero(new')
    ensures Replay(VariableEvents(f, s, new', n), u, false)
    decreases n
  {
    RelativeElementSays(f, s, u, n - 1, new'[n - 1]);
    ReplayOne(VariableEvents(f, s, new', n - 1), ElementEvents(f, s, n - 1, new'[n - 1]), u, false);
    if n - 1 > i { RelativePresses(f, s, new', u, i, n - 1); }
  }

  lemma {:induction false} RelativeRestIsSilent(f: InputField, s: FieldState, n: nat)
    requires Fits(f, s) && f.flags.relative && n <= f.count
    ensures VariableEvents(f, s, seq(f.count, _ => 0), n) == []
    decreases n
  {
    if n > 0 { RelativeRestIsSilent(f, s, n - 1); }
  }

  /** So after a press and a rest the listener still thinks the key is down. */
  lemma RelativeReplaysWrongly(f: InputField, u: Usage, i: nat)
    requires Sized(f) && f.flags.variable && f.flags.relative && Digital(u) && i < f.count && StandsFor(f, i, u)
    ensures !AlwaysRight(f, u)
  {
    SomeValueIsPossible(f);
    var down, up := seq(f.count, _ => SomeValue(f)), seq(f.count, _ => 0);
    var s := Decode(f, NewState(f), down);
    RelativePresses(f, NewState(f), down, u, i, f.count);
    RelativeRestIsSilent(f, s.0, f.count);
    assert !Contributes(f, Decode(f, s.0, up).0, u);
    WrongTwice(f, u, down, up);
  }

  /** Two elements standing for one key: both go down, then the later one comes up. The
      listener hears a release although the earlier element still holds the key. */
  lemma SharedUsageReplaysWrongly(f: InputField, u: Usage, i: nat, j: nat)
    requires Sized(f) && f.flags.variable && !f.flags.relative && Digital(u) && i < j < f.count
    requires StandsFor(f, i, u) && StandsFor(f, j, u)
    ensures !AlwaysRight(f, u)
  {
    var v := SomeValue(f);
    SomeValueIsPossible(f);
    var down := seq(f.count, _ => v);
    var mixed := down[j := 0];
    var pressed := Decode(f, NewState(f), down);
    OnlyOneTells(f, pressed.0, mixed, u, j, Replay(pressed.1, u, false));
    assert ElementActive(f, Decode(f, pressed.0, mixed).0, u, i);
    WrongTwice(f, u, down, mixed);
  }

  // ------------------------------------------------------------- array fields

  /** A value an array field may come to remember; error codes never are. */
  predicate Takes(f: InputField, v: int)
  {
    Possible(f, v) && !(f.defaultUsagePage == KEYBOARD_PAGE && IsErrorUsage(v))
  }

  /** Announcing this value is heard as `u`. */
  predicate Heard(f: InputField, v: int, u: Usage)
  {
    v != 0 && f.defaultUsagePage == KEYBOARD_PAGE && u.page == KEYBOARD_PAGE &&
    ArrayUsage(f, AsU32(v)).Some? && ArrayUsage(f, AsU32(v)).value.id == u.id
  }

  /** Remembering this value makes `u` active. */
  predicate Holds(f: InputField, v: int, u: Usage)
  {
    v > 0 && ArrayUsage(f, AsU32(v)) == Some(u)
  }

  predicate AnyHeard(f: InputField, values: seq<int>, u: Usage)
  {
    exists i :: 0 <= i < |values| && Heard(f, values[i], u)
  }

  predicate AllTaken(f: InputField, values: seq<int>)
  {
    forall i :: 0 <= i < |values| ==> Takes(f, values[i])
  }

  lemma KeySays(f: InputField, v: int, pressed: bool, u: Usage)
    requires f.defaultUsagePage == KEYBOARD_PAGE && v != 0
    ensures |KeyEvents(f, v, pressed)| <= 1
    ensures Heard(f, v, u) ==> KeyEvents(f, v, pressed) != []
    ensures KeyEvents(f, v, pressed) != [] ==>
      Says(KeyEvents(f, v, pressed)[0], u) == if Heard(f, v, u) then Some(pressed) else None
  {
  }

  lemma AnyHeardOneMore(f: InputField, values: seq<int>, u: Usage)
    requires values != []
    ensures AnyHeard(f, values, u) <==> AnyHeard(f, values[..|values| - 1], u) || Heard(f, values[|values| - 1], u)
  {
    var n := |values| - 1;
    if AnyHeard(f, values[..n], u) {
      var i :| 0 <= i < n && Heard(f, values[..n][i], u);
      assert Heard(f, values[i], u);
    }
    if AnyHeard(f, values, u) && !Heard(f, values[n], u) {
      var i :| 0 <= i < |values| && Heard(f, values[i], u);
      assert Heard(f, values[..n][i], u);
    }
  }

  lemma {:induction false} AnnounceReplays(f: InputField, values: seq<int>, pressed: bool, u: Usage, down: bool)
    requires f.defaultUsagePage == KEYBOARD_PAGE && NoZero(values)
    ensures Replay(Announce(f, values, pressed), u, down) == if AnyHeard(f, values, u) then pressed else down
  {
    if values != [] {
      var n := |values| - 1;
      AnnounceReplays(f, values[..n], pressed, u, down);
      KeySays(f, values[n], pressed, u);
      ReplayOne(Announce(f, values[..n], pressed), KeyEvents(f, values[n], pressed), u, down);
      AnyHeardOneMore(f, values, u);
    }
  }

  /** Something heard as `u` is in one reading and not in the other. */
  predicate HeardChange(f: InputField, from: seq<int>, other: seq<int>, u: Usage)
  {
    exists v :: v in from && v !in other && Heard(f, v, u)
  }

  lemma ChangesHold(from: seq<int>, other: seq<int>, v: int)
    ensures v in Changes(from, other, |from|) <==> Differs(from, other, v)
  {
    ChangesAreExact(from, other, |from|, v);
    assert from[..|from|] == from;
    assert v in Changes(from, other, |from|) <==> multiset(Changes(from, other, |from|))[v] > 0;
  }

  lemma ChangesReplay(f: InputField, from: seq<int>, other: seq<int>, pressed: bool, u: Usage, down: bool)
    requires f.defaultUsagePage == KEYBOARD_PAGE
    ensures Replay(Announce(f, Changes(from, other, |from|), pressed), u, down) ==
      if HeardChange(f, from, other, u) then pressed else down
  {
    var changes := Changes(from, other, |from|);
    forall i | 0 <= i < |changes| ensures changes[i] != 0 { ChangesHold(from, other, changes[i]); }
    AnnounceReplays(f, changes, pressed, u, down);
    if i :| 0 <= i < |changes| && Heard(f, changes[i], u) { ChangesHold(from, other, changes[i]); }
    if v :| v in from && v !in other && Heard(f, v, u) { ChangesHold(from, other, v); }
  }

  /** What a listener makes of one reading: new keys go down after gone ones came up. */
  lemma ReadingSays(f: InputField, s: FieldState, new': seq<int>, u: Usage, down: bool)
    requires Fits(f, s) && |new'| == f.count && !f.flags.variable && !RollsOver(f, new')
    ensures Replay(Decode(f, s, new').1, u, down) ==
      if HeardChange(f, new', s.values, u) then true else if HeardChange(f, s.values, new', u) then false else down
  {
    if f.defaultUsagePage == KEYBOARD_PAGE {
      var released := Announce(f, Changes(s.values, new', f.count), false);
      ReplayConcat(released, Announce(f, Changes(new', s.values, f.count), true), u, down);
      ChangesReplay(f, s.values, new', false, u, down);
      ChangesReplay(f, new', s.values, true, u, Replay(released, u, down));
    }
  }

  /** What is heard as the key is what holds it, and two things held at once differ. */
  ghost predicate Unambiguous(f: InputField, u: Usage)
  {
    && (forall v :: Takes(f, v) ==> Heard(f, v, u) == Holds(f, v, u))
    && (f.count >= 2 ==> forall v, w :: Takes(f, v) && Takes(f, w) && Heard(f, v, u) && Heard(f, w, u) ==> v == w)
  }

  lemma ArrayContributes(f: InputField, s: FieldState, u: Usage)
    requires Fits(f, s) && !f.flags.variable && Unambiguous(f, u) && AllTaken(f, s.values)
    ensures Contributes(f, s, u) <==> AnyHeard(f, s.values, u)
  {
    if i :| 0 <= i < f.count && ElementActive(f, s, u, i) {
      assert Takes(f, s.values[i]) && Holds(f, s.values[i], u);
    }
    if i :| 0 <= i < f.count && Heard(f, s.values[i], u) {
      assert Takes(f, s.values[i]);
      assert ElementActive(f, s, u, i);
    }
  }

  lemma HeardOnce(f: InputField, values: seq<int>, u: Usage, p: nat, q: nat)
    requires Unambiguous(f, u) && AllTaken(f, values) && |values| == f.count && p < |values| && q < |values|
    requires Heard(f, values[p], u) && Heard(f, values[q], u)
    ensures values[p] == values[q]
  {
    if p != q { assert Takes(f, values[p]) && Takes(f, values[q]); }
  }

  /** A key that goes away is not held any longer. */
  lemma HeardLeaves(f: InputField, old': seq<int>, new': seq<int>, u: Usage)
    requires |old'| == |new'| == f.count && Unambiguous(f, u) && AllTaken(f, old')
    requires HeardChange(f, old', new', u) && !HeardChange(f, new', old', u)
    ensures !AnyHeard(f, new', u)
  {
    var v :| v in old' && v !in new' && Heard(f, v, u);
    var q :| 0 <= q < |old'| && old'[q] == v;
    if i :| 0 <= i < |new'| && Heard(f, new'[i], u) {
      assert new'[i] in old';
      var p :| 0 <= p < |old'| && old'[p] == new'[i];
      HeardOnce(f, old', u, p, q);
    }
  }

  lemma HeardStays(f: InputField, old': seq<int>, new': seq<int>, u: Usage)
    requires !HeardChange(f, old', new', u) && AnyHeard(f, old', u)
    ensures AnyHeard(f, new', u)
  {
    var i :| 0 <= i < |old'| && Heard(f, old'[i], u);
    assert old'[i] in new';
    var p :| 0 <= p < |new'| && new'[p] == old'[i];
    assert Heard(f, new'[p], u);
  }

  lemma HeardMoves(f: InputField, old': seq<int>, new': seq<int>, u: Usage)
    requires |old'| == |new'| == f.count && Unambiguous(f, u) && AllTaken(f, old') && AllTaken(f, new')
    ensures AnyHeard(f, new', u) ==
      if HeardChange(f, new', old', u) then true
      else if HeardChange(f, old', new', u) then false
      else AnyHeard(f, old', u)
  {
    if HeardChange(f, new', old', u) {
      var v :| v in new' && v !in old' && Heard(f, v, u);
      var p :| 0 <= p < |new'| && new'[p] == v;
      assert Heard(f, new'[p], u);
    } else if HeardChange(f, old', new', u) {
      HeardLeaves(f, old', new', u);
    } else {
      if AnyHeard(f, old', u) { HeardStays(f, old', new', u); }
      if AnyHeard(f, new', u) { HeardStays(f, new', old', u); }
    }
  }

  /** Replaying one reading's events takes the old contribution of the field to the new. */
  lemma ArrayStepReplays(f: InputField, s: FieldState, new': seq<int>, u: Usage)
    requires Fits(f, s) && !f.flags.variable && Unambiguous(f, u)
    requires AllTaken(f, s.values) && PossibleReading(f, new')
    ensures Replay(Decode(f, s, new').1, u, Contributes(f, s, u)) == Contributes(f, Decode(f, s, new').0, u)
    ensures AllTaken(f, Decode(f, s, new').0.values)
  {
    if !RollsOver(f, new') {
      var down, after := Contributes(f, s, u), s.(values := new');
      ArrayContributes(f, s, u);
      ArrayContributes(f, after, u);
      HeardMoves(f, s.values, new', u);
      ReadingSays(f, s, new', u, down);
    }
  }

  /** The reading of a field with one or two values in it and nothing else. */
  function OnlyThese(f: InputField, v: int, w: int): (values: seq<int>)
    ensures |values| == f.count
  {
    seq(f.count, i => if i == 0 then v else if i == 1 then w else 0)
  }

  lemma OnlyTheseCanArrive(f: InputField, v: int, w: int)
    requires Sized(f) && Takes(f, v) && Takes(f, w)
    ensures PossibleReading(f, OnlyThese(f, v, w)) && !RollsOver(f, OnlyThese(f, v, w))
  {
    SomeValueIsPossible(f);
  }

  /** From rest, one value is announced if it can be, and held if it can be. */
  lemma OneValue(f: InputField, v: int, u: Usage)
    requires Sized(f) && !f.flags.variable && Takes(f, v) && Digital(u)
    ensures Replay(Run(f, [OnlyThese(f, v, 0)]).1, u, false) == Heard(f, v, u)
    ensures Contributes(f, Run(f, [OnlyThese(f, v, 0)]).0, u) == Holds(f, v, u)
  {
    SomeValueIsPossible(f);
    OnlyTheseCanArrive(f, v, 0);
    var reading := OnlyThese(f, v, 0);
    RunOne(f, reading);
    var s := Decode(f, NewState(f), reading).0;
    assert ElementActive(f, s, u, 0) == Holds(f, v, u);
    ReadingSays(f, NewState(f), reading, u, false);
    assert reading[0] == v;
    if Heard(f, v, u) { assert v in reading && v !in NewState(f).values; }
  }

  /** A value that is heard and not held, or held and not heard, misleads at once. */
  lemma MisheardReplaysWrongly(f: InputField, u: Usage, v: int)
    requires Sized(f) && !f.flags.variable && Digital(u) && Takes(f, v) && Heard(f, v, u) != Holds(f, v, u)
    ensures !AlwaysRight(f, u)
  {
    SomeValueIsPossible(f);
    OnlyTheseCanArrive(f, v, 0);
    OneValue(f, v, u);
    WrongOnce(f, u, [OnlyThese(f, v, 0)]);
  }

  lemma OneGoes(f: InputField, u: Usage, v: int, w: int)
    requires f.count >= 2 && v != w && Heard(f, w, u)
    ensures HeardChange(f, OnlyThese(f, v, w), OnlyThese(f, v, 0), u)
    ensures !HeardChange(f, OnlyThese(f, v, 0), OnlyThese(f, v, w), u)
  {
    var both, one := OnlyThese(f, v, w), OnlyThese(f, v, 0);
    assert both[1] == w && w in both && w !in one;
    assert both[0] == v;
    assert forall x :: x in one && x !in both ==> x == 0;
  }

  /** Two values for one key: both are there, then one goes. */
  lemma AliasReplaysWrongly(f: InputField, u: Usage, v: int, w: int)
    requires Sized(f) && f.count >= 2 && !f.flags.variable && Digital(u) && v != w && Takes(f, v) && Takes(f, w)
    requires Heard(f, v, u) && Holds(f, v, u) && Heard(f, w, u)
    ensures !AlwaysRight(f, u)
  {
    SomeValueIsPossible(f);
    OnlyTheseCanArrive(f, v, w);
    OnlyTheseCanArrive(f, v, 0);
    var both, one := OnlyThese(f, v, w), OnlyThese(f, v, 0);
    var s := Decode(f, NewState(f), both);
    ReadingSays(f, s.0, one, u, Replay(s.1, u, false));
    OneGoes(f, u, v, w);
    assert one[0] == v;
    assert ElementActive(f, Decode(f, s.0, one).0, u, 0);
    WrongTwice(f, u, both, one);
  }

  // ---------------------------------------------------------------- both kinds

  /** Read off the field's description: which keys a listener can trust it about. */
  ghost predicate Trusted(f: InputField, u: Usage)
  {
    if !f.flags.variable then Unambiguous(f, u)
    else if f.flags.relative then forall i :: 0 <= i < f.count ==> !StandsFor(f, i, u)
    else AtMostOne(f, u)
  }

  lemma {:induction false} RunTakes(f: InputField, readings: seq<seq<int>>)
    requires Sized(f) && CanArrive(f, readings) && AllFit(f, readings) && !f.flags.variable
    ensures AllTaken(f, Run(f, readings).0.values)
    decreases |readings|
  {
    SomeValueIsPossible(f);
    if readings != [] { RunTakes(f, readings[..|readings| - 1]); }
  }

  /** Replaying everything a field ever announced gives its current contribution. */
  lemma {:induction false} RunReplays(f: InputField, readings: seq<seq<int>>, u: Usage)
    requires Sized(f) && CanArrive(f, readings) && AllFit(f, readings) && Digital(u) && Trusted(f, u)
    ensures RightAfter(f, u, readings)
    decreases |readings|
  {
    if readings == [] {
      forall k | 0 <= k < f.count ensures !ElementActive(f, NewState(f), u, k) {}
    } else {
      var n := |readings| - 1;
      var before := Run(f, readings[..n]);
      RunReplays(f, readings[..n], u);
      ReplayConcat(before.1, Decode(f, before.0, readings[n]).1, u, false);
      StepReplays(f, readings[..n], readings[n], u);
    }
  }

  lemma StepReplays(f: InputField, readings: seq<seq<int>>, new': seq<int>, u: Usage)
    requires Sized(f) && CanArrive(f, readings) && AllFit(f, readings) && Digital(u) && Trusted(f, u)
    requires PossibleReading(f, new')
    ensures var s := Run(f, readings).0;
            Replay(Decode(f, s, new').1, u, Contributes(f, s, u)) == Contributes(f, Decode(f, s, new').0, u)
  {
    var s := Run(f, readings).0;
    if !f.flags.variable {
      RunTakes(f, readings);
      ArrayStepReplays(f, s, new', u);
    } else if f.flags.relative {
      UnusedStepReplays(f, s, new', u);
    } else {
      VariableStepReplays(f, s, new', u);
    }
  }

  lemma UntrustedReplaysWrongly(f: InputField, u: Usage)
    requires Sized(f) && Digital(u) && !Trusted(f, u)
    ensures !AlwaysRight(f, u)
  {
    if !f.flags.variable {
      if v :| Takes(f, v) && Heard(f, v, u) != Holds(f, v, u) {
        MisheardReplaysWrongly(f, u, v);
      } else {
        var v, w :| Takes(f, v) && Takes(f, w) && Heard(f, v, u) && Heard(f, w, u) && v != w;
        AliasReplaysWrongly(f, u, v, w);
      }
    } else if f.flags.relative {
      var i :| 0 <= i < f.count && StandsFor(f, i, u);
      RelativeReplaysWrongly(f, u, i);
    } else {
      var i, j :|
        0 <= i < f.count && 0 <= j < f.count && UsageForElement(f, i) == Some(u) == UsageForElement(f, j) && i != j;
      SharedUsageReplaysWrongly(f, u, if i < j then i else j, if i < j then j else i);
    }
  }

  /** Over all runs the listener is right about a key exactly when the field is trusted. */
  lemma ReplayIsRightExactly(f: InputField, u: Usage)
    requires Sized(f) && Digital(u)
    ensures Trusted(f, u) <==> AlwaysRight(f, u)
  {
    if Trusted(f, u) {
      forall readings | CanArrive(f, readings) ensures AllFit(f, readings) && RightAfter(f, u, readings) {
        RunReplays(f, readings, u);
      }
    } else {
      UntrustedReplaysWrongly(f, u);
    }
  }

  lemma NarrowValue(f: InputField, v: int, u: Usage)
    requires f.defaultUsagePage == KEYBOARD_PAGE && 0 <= v <= 0xFFFF
    ensures Heard(f, v, u) == Holds(f, v, u) && (Heard(f, v, u) ==> v == u.id)
  {
    assert AsU32(v) == v;
  }

  /** Keyboard arrays with selectors of at most 16 bits and a non-negative minimum are
      trusted about every key. */
  lemma NarrowArraysAreTrusted(f: InputField, u: Usage)
    requires Sized(f) && !f.flags.variable && f.defaultUsagePage == KEYBOARD_PAGE
    requires f.bitSize <= 16 && f.logicalMin >= 0
    requires Digital(u)
    ensures Trusted(f, u)
  {
    PowGrows(f.bitSize, 16);
    assert Pow2(16) == 0x1_0000 by { assert Pow2(8) == 0x100; PowAdds(8, 8); }
    forall v | Takes(f, v)
      ensures Heard(f, v, u) == Holds(f, v, u) && (Heard(f, v, u) ==> v == u.id)
    {
      NarrowValue(f, v, u);
    }
  }
}
