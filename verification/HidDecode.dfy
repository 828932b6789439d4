/** What decoding a report changes and announces, field by field. */
module HidDecode {
  import opened Bits
  import opened HidLayout
  import opened HidValues
  import opened LittleEndian
  import opened Objects

  const KEYBOARD_PAGE: nat := 0x07
  const BUTTON_PAGE: nat := 0x09
  const DESKTOP_PAGE: nat := 0x01
  const HAT_SWITCH: nat := 0x39

  datatype Event =
    | Key(application: Option<nat>, usage: nat, pressed: bool)
    | Button(application: Option<nat>, button: nat, pressed: bool)
    | Axis(application: Option<nat>, axis: nat, value: int, rawValue: int, relative: bool)
    | HatSwitch(application: Option<nat>, position: Option<nat>)
    | Value(application: Option<nat>, owner: Usage, value: int, relative: bool)

  /** The remembered values of one field. */
  datatype FieldState = FieldState(values: seq<int>, initialized: seq<bool>)

  predicate Fits(f: InputField, s: FieldState)
  {
    |s.values| == f.count && |s.initialized| == f.count
  }

  function NewState(f: InputField): FieldState
  {
    FieldState(seq(f.count, _ => 0), seq(f.count, _ => false))
  }

  // ----------------------------------------------------------------- readings

  /** The payload holds all bits of the field. */
  predicate Covers(f: InputField, payload: seq<u8>)
  {
    1 <= f.bitSize <= 32 && f.bitOffset + FieldBits(f) <= 8 * |payload|
  }

  function Reading(f: InputField, payload: seq<u8>, index: nat): int
    requires Covers(f, payload)
  {
    LogicalValue(Extract(FromBytes(payload), f.bitOffset + index * f.bitSize, f.bitSize), f.bitSize, f.logicalMin)
  }

  function Readings(f: InputField, payload: seq<u8>): seq<int>
    requires Covers(f, payload)
  {
    seq(f.count, index requires 0 <= index < f.count => Reading(f, payload, index))
  }

  // ------------------------------------------------------------------- usages

  function UsageForElement(f: InputField, index: nat): Option<Usage>
  {
    if index >= f.count then None
    else if f.usageMin.Some? && f.usageMax.Some? && f.usageMin.value.page == f.usageMax.value.page then
      var id := f.usageMin.value.id + index;
      Some(Usage(f.usageMin.value.page, if id < f.usageMax.value.id then id else f.usageMax.value.id))
    else if index < |f.usages| then Some(f.usages[index])
    else if f.usages != [] then Some(f.usages[|f.usages| - 1])
    else None
  }

  function AsU32(value: int): nat { value % SPAN_32 }

  function ArrayUsage(f: InputField, raw: nat): Option<Usage>
  {
    var usage := if raw > 0xFFFF then Usage(raw / 0x1_0000, raw % 0x1_0000) else Usage(f.defaultUsagePage, raw);
    if f.usageMin.Some? && f.usageMax.Some? &&
       (usage.page != f.usageMin.value.page || usage.page != f.usageMax.value.page ||
        usage.id < f.usageMin.value.id || usage.id > f.usageMax.value.id)
    then None
    else Some(usage)
  }

  /** A usage range gives its elements consecutive usages, the last of them to all beyond;
      a list gives them in order, again the last to all beyond. */
  lemma ElementUsageIsExact(f: InputField, index: nat)
    requires index < f.count
    ensures
      var ranged := f.usageMin.Some? && f.usageMax.Some? && f.usageMin.value.page == f.usageMax.value.page;
      var usage, listed := UsageForElement(f, index), |f.usages|;
      if ranged then
        && usage.Some? && usage.value.page == f.usageMin.value.page
        && (f.usageMin.value.id + index <= f.usageMax.value.id ==> usage.value.id == f.usageMin.value.id + index)
        && (f.usageMin.value.id + index > f.usageMax.value.id ==> usage == f.usageMax)
      else if listed == 0 then usage.None?
      else usage == Some(f.usages[if index < listed then index else listed - 1])
  {
  }

  /** A selector names the usage it spells, with its own page if it is wide, unless the
      field has a usage range and that usage lies outside it. */
  lemma ArrayUsageIsExact(f: InputField, raw: nat, u: Usage)
    requires u.page < 0x1_0000 && u.id < 0x1_0000 && f.defaultUsagePage < 0x1_0000 && raw < SPAN_32
    ensures ArrayUsage(f, raw) == Some(u) <==>
      && raw == (if raw > 0xFFFF then 0x1_0000 * u.page + u.id else u.id)
      && (raw <= 0xFFFF ==> u.page == f.defaultUsagePage)
      && (f.usageMin.Some? && f.usageMax.Some? ==>
            && u.page == f.usageMin.value.page == f.usageMax.value.page
            && f.usageMin.value.id <= u.id <= f.usageMax.value.id)
  {
  }

  // ------------------------------------------------------------------- events

  function HatPosition(f: InputField, value: int): Option<nat>
  {
    if value < f.logicalMin || value > f.logicalMax || value - f.logicalMin >= 8 then None
    else Some(value - f.logicalMin)
  }

  function ClampI32(value: int): int { Clamp(value, -0x8000_0000, 0x7FFF_FFFF) }

  function EventForValue(f: InputField, usage: Usage, value: int): Event
  {
    if usage.page == KEYBOARD_PAGE then Key(f.application, usage.id, value != 0)
    else if usage.page == BUTTON_PAGE then Button(f.application, usage.id, value != 0)
    else if usage.page == DESKTOP_PAGE && usage.id == HAT_SWITCH then HatSwitch(f.application, HatPosition(f, value))
    else if usage.page == DESKTOP_PAGE && 0x30 <= usage.id <= 0x38 then
      Axis(f.application, usage.id,
           if f.flags.relative then ClampI32(value) else NormalizeAxis(value, f.logicalMin, f.logicalMax),
           value, f.flags.relative)
    else Value(f.application, usage, value, f.flags.relative)
  }

  /** What element `index` announces when its value becomes `value`. */
  function ElementEvents(f: InputField, s: FieldState, index: nat, value: int): seq<Event>
    requires Fits(f, s) && index < f.count
  {
    var usage := UsageForElement(f, index);
    if usage.None? then []
    else if f.flags.relative && value == 0 then []
    else if !f.flags.relative && value == s.values[index]
            && (s.initialized[index] || usage.value.page != DESKTOP_PAGE) then []
    else [EventForValue(f, usage.value, value)]
  }

  /** The events of the first `n` elements. */
  function VariableEvents(f: InputField, s: FieldState, new': seq<int>, n: nat): seq<Event>
    requires Fits(f, s) && |new'| == f.count && n <= f.count
  {
    if n == 0 then [] else VariableEvents(f, s, new', n - 1) + ElementEvents(f, s, n - 1, new'[n - 1])
  }

  function KeyEvents(f: InputField, value: int, pressed: bool): seq<Event>
  {
    var usage := ArrayUsage(f, AsU32(value));
    if usage.None? then [] else [Key(f.application, usage.value.id, pressed)]
  }

  /** The values among the first `n` of `from` that are not zero and not in `other`, each
      where it is met first. */
  function Changes(from: seq<int>, other: seq<int>, n: nat): seq<int>
    requires n <= |from|
  {
    if n == 0 then []
    else
      var before, v := Changes(from, other, n - 1), from[n - 1];
      if v == 0 || v in from[..n - 1] || v in other then before else before + [v]
  }

  function Announce(f: InputField, values: seq<int>, pressed: bool): seq<Event>
  {
    if values == [] then []
    else Announce(f, values[..|values| - 1], pressed) + KeyEvents(f, values[|values| - 1], pressed)
  }

  predicate IsErrorUsage(value: int) { 1 <= value <= 3 }

  predicate RollsOver(f: InputField, new': seq<int>)
  {
    f.defaultUsagePage == KEYBOARD_PAGE && exists i :: 0 <= i < |new'| && IsErrorUsage(new'[i])
  }

  /** Decodes one reading of a field: its new state and the events it announces. */
  function Decode(f: InputField, s: FieldState, new': seq<int>): (r: (FieldState, seq<Event>))
    requires Fits(f, s) && |new'| == f.count
    ensures Fits(f, r.0)
  {
    if f.flags.variable then
      (FieldState(new', seq(f.count, _ => true)), VariableEvents(f, s, new', f.count))
    else if RollsOver(f, new') then (s, [])
    else
      (s.(values := new'),
       if f.defaultUsagePage == KEYBOARD_PAGE
       then Announce(f, Changes(s.values, new', f.count), false) + Announce(f, Changes(new', s.values, f.count), true)
       else [])
  }

  /** A keyboard array that reports usage 1, 2 or 3 anywhere is passed over; any other
      reading of an array is remembered, and only a keyboard's is announced. */
  lemma RolloverIsExact(f: InputField, s: FieldState, new': seq<int>)
    requires Fits(f, s) && |new'| == f.count && !f.flags.variable
    ensures
      var error := f.defaultUsagePage == 0x07 && (1 in new' || 2 in new' || 3 in new');
      && Decode(f, s, new').0 == (if error then s else s.(values := new'))
      && (error || f.defaultUsagePage != 0x07 ==> Decode(f, s, new').1 == [])
  {
    forall v: int | v in new' ensures exists i :: 0 <= i < |new'| && new'[i] == v {}
  }

  // ------------------------------------------------------------------- replay

  /** What an event says about a key or button. */
  function Says(e: Event, u: Usage): Option<bool>
  {
    match e
    case Key(_, id, pressed) => if u == Usage(KEYBOARD_PAGE, id) then Some(pressed) else None
    case Button(_, id, pressed) => if u == Usage(BUTTON_PAGE, id) then Some(pressed) else None
    case _ => None
  }

  /** Whether a listener that heard these events thinks the key is down. */
  function Replay(events: seq<Event>, u: Usage, down: bool): bool
  {
    if events == [] then down
    else
      var last := Says(events[|events| - 1], u);
      if last.Some? then last.value else Replay(events[..|events| - 1], u, down)
  }

  predicate Digital(u: Usage) { u.page == KEYBOARD_PAGE || u.page == BUTTON_PAGE }

  /** The field's part in whether the key counts as active. */
  predicate Contributes(f: InputField, s: FieldState, u: Usage)
    requires Fits(f, s)
  {
    exists i :: 0 <= i < f.count && ElementActive(f, s, u, i)
  }

  predicate ElementActive(f: InputField, s: FieldState, u: Usage, i: nat)
    requires Fits(f, s) && i < f.count
  {
    if f.flags.variable then UsageForElement(f, i) == Some(u) && s.values[i] != 0
    else s.values[i] > 0 && ArrayUsage(f, AsU32(s.values[i])) == Some(u)
  }

  lemma {:induction false} ReplayConcat(a: seq<Event>, b: seq<Event>, u: Usage, down: bool)
    ensures Replay(a + b, u, down) == Replay(b, u, Replay(a, u, down))
    decreases |b|
  {
    if b == [] {
      assert a + b == a;
    } else {
      assert (a + b)[..|a + b| - 1] == a + b[..|b| - 1];
      ReplayConcat(a, b[..|b| - 1], u, down);
    }
  }

  /** Nothing here says anything about `u`. */
  predicate Silent(events: seq<Event>, u: Usage)
  {
    forall n :: 0 <= n < |events| ==> Says(events[n], u).None?
  }

  lemma {:induction false} ReplaySilent(events: seq<Event>, u: Usage, down: bool)
    requires Silent(events, u)
    ensures Replay(events, u, down) == down
  {
    if events != [] { ReplaySilent(events[..|events| - 1], u, down); }
  }

  lemma SilentConcat(a: seq<Event>, b: seq<Event>, u: Usage)
    ensures Silent(a + b, u) <==> Silent(a, u) && Silent(b, u)
  {
    if Silent(a + b, u) {
      forall n | 0 <= n < |a| ensures Says(a[n], u).None? { assert (a + b)[n] == a[n]; }
      forall n | 0 <= n < |b| ensures Says(b[n], u).None? { assert (a + b)[|a| + n] == b[n]; }
    }
  }

  /** The first `n` lists, one behind the other. */
  function Flat(lists: nat -> seq<Event>, n: nat): seq<Event>
  {
    if n == 0 then [] else Flat(lists, n - 1) + lists(n - 1)
  }

  lemma OneListMore(before: seq<Event>, last: seq<Event>, u: Usage, down: bool)
    ensures Replay(before + last, u, down) == Replay(last, u, Replay(before, u, down))
    ensures Silent(last, u) ==> Replay(before + last, u, down) == Replay(before, u, down)
  {
    ReplayConcat(before, last, u, down);
    if Silent(last, u) { ReplaySilent(last, u, Replay(before, u, down)); }
  }

  /** Only list `k` speaks of the key. */
  lemma {:induction false} FlatReplays(lists: nat -> seq<Event>, n: nat, k: nat, u: Usage, down: bool)
    requires forall l: nat :: l < n && l != k ==> Silent(lists(l), u)
    ensures Replay(Flat(lists, n), u, down) == if k < n then Replay(lists(k), u, down) else down
    decreases n
  {
    if n > 0 {
      FlatReplays(lists, n - 1, k, u, down);
      OneListMore(Flat(lists, n - 1), lists(n - 1), u, down);
    }
  }

  predicate AddsList(whole: nat -> seq<Event>, lists: nat -> seq<Event>, n: nat) { whole(n + 1) == whole(n) + lists(n) }

  lemma {:induction false} FlatIsWhole(whole: nat -> seq<Event>, lists: nat -> seq<Event>, n: nat)
    requires whole(0) == [] && forall l: nat :: l < n ==> AddsList(whole, lists, l)
    ensures whole(n) == Flat(lists, n)
    decreases n
  {
    if n > 0 {
      FlatIsWhole(whole, lists, n - 1);
      assert AddsList(whole, lists, n - 1);
    }
  }

  // ---------------------------------------------------------- variable fields

  /** What each element announces. */
  function Elements(f: InputField, s: FieldState, new': seq<int>): nat -> seq<Event>
    requires Fits(f, s) && |new'| == f.count
  {
    (l: nat) => if l < f.count then ElementEvents(f, s, l, new'[l]) else []
  }

  function FirstElements(f: InputField, s: FieldState, new': seq<int>): nat -> seq<Event>
    requires Fits(f, s) && |new'| == f.count
  {
    (n: nat) => if n <= f.count then VariableEvents(f, s, new', n) else []
  }

  lemma NextElementAdds(f: InputField, s: FieldState, new': seq<int>, n: nat)
    requires Fits(f, s) && |new'| == f.count && n < f.count
    ensures AddsList(FirstElements(f, s, new'), Elements(f, s, new'), n)
  {
  }

  lemma VariableIsFlat(f: InputField, s: FieldState, new': seq<int>)
    requires Fits(f, s) && |new'| == f.count
    ensures VariableEvents(f, s, new', f.count) == Flat(Elements(f, s, new'), f.count)
  {
    forall n: nat | n < f.count { NextElementAdds(f, s, new', n); }
    FlatIsWhole(FirstElements(f, s, new'), Elements(f, s, new'), f.count);
  }

  /** If no other element speaks of the key, a reading says of it what element `i` says. */
  lemma OneElementSpeaks(f: InputField, s: FieldState, new': seq<int>, u: Usage, i: nat, down: bool)
    requires Fits(f, s) && |new'| == f.count
    requires forall l: nat :: l < f.count && l != i ==> Silent(ElementEvents(f, s, l, new'[l]), u)
    ensures Replay(VariableEvents(f, s, new', f.count), u, down) ==
      if i < f.count then Replay(ElementEvents(f, s, i, new'[i]), u, down) else down
  {
    VariableIsFlat(f, s, new');
    FlatReplays(Elements(f, s, new'), f.count, i, u, down);
  }

  /** No two elements stand for the same usage. */
  predicate AtMostOne(f: InputField, u: Usage)
  {
    forall i, k :: 0 <= i < f.count && 0 <= k < f.count && UsageForElement(f, i) == Some(u) == UsageForElement(f, k) ==>
      i == k
  }

  /** Whether element `k` tells listeners a new value of `u`. */
  predicate Tells(f: InputField, s: FieldState, new': seq<int>, u: Usage, k: nat)
    requires Fits(f, s) && |new'| == f.count && k < f.count
  {
    UsageForElement(f, k) == Some(u) && new'[k] != s.values[k]
  }

  lemma ElementSays(f: InputField, s: FieldState, new': seq<int>, u: Usage, k: nat, down: bool)
    requires Fits(f, s) && |new'| == f.count && k < f.count && Digital(u) && !f.flags.relative
    ensures Replay(ElementEvents(f, s, k, new'[k]), u, down) == if Tells(f, s, new', u, k) then new'[k] != 0 else down
  {
    var events := ElementEvents(f, s, k, new'[k]);
    if events != [] { assert events[..0] == []; }
  }

  predicate Quiet(f: InputField, s: FieldState, new': seq<int>, u: Usage)
    requires Fits(f, s) && |new'| == f.count
  {
    forall k :: 0 <= k < f.count ==> !Tells(f, s, new', u, k)
  }

  lemma QuietElement(f: InputField, s: FieldState, new': seq<int>, u: Usage, k: nat)
    requires Fits(f, s) && |new'| == f.count && k < f.count && Digital(u) && !f.flags.relative
    requires !Tells(f, s, new', u, k)
    ensures Silent(ElementEvents(f, s, k, new'[k]), u)
  {
  }

  lemma QuietReading(f: InputField, s: FieldState, new': seq<int>, u: Usage, down: bool)
    requires Fits(f, s) && |new'| == f.count && Digital(u) && !f.flags.relative && Quiet(f, s, new', u)
    ensures Replay(VariableEvents(f, s, new', f.count), u, down) == down
  {
    forall l: nat | l < f.count ensures Silent(ElementEvents(f, s, l, new'[l]), u) { QuietElement(f, s, new', u, l); }
    OneElementSpeaks(f, s, new', u, f.count, down);
  }

  predicate OnlyTeller(f: InputField, s: FieldState, new': seq<int>, u: Usage, i: nat)
    requires Fits(f, s) && |new'| == f.count && i < f.count
  {
    Tells(f, s, new', u, i) && forall k :: 0 <= k < f.count && k != i ==> !Tells(f, s, new', u, k)
  }

  /** If only element `i` can tell, the listener ends up with what it told. */
  lemma OnlyOneTells(f: InputField, s: FieldState, new': seq<int>, u: Usage, i: nat, down: bool)
    requires Fits(f, s) && |new'| == f.count && i < f.count && Digital(u) && !f.flags.relative
    requires OnlyTeller(f, s, new', u, i)
    ensures Replay(VariableEvents(f, s, new', f.count), u, down) == (new'[i] != 0)
  {
    forall l: nat | l < f.count && l != i ensures Silent(ElementEvents(f, s, l, new'[l]), u) {
      QuietElement(f, s, new', u, l);
    }
    OneElementSpeaks(f, s, new', u, i, down);
    ElementSays(f, s, new', u, i, down);
  }

  lemma SameContribution(f: InputField, s: FieldState, t: FieldState, u: Usage)
    requires Fits(f, s) && Fits(f, t)
    requires forall k :: 0 <= k < f.count ==> ElementActive(f, s, u, k) == ElementActive(f, t, u, k)
    ensures Contributes(f, s, u) == Contributes(f, t, u)
  {
  }

  lemma VariableStepReplays(f: InputField, s: FieldState, new': seq<int>, u: Usage)
    requires Fits(f, s) && |new'| == f.count && f.flags.variable && !f.flags.relative && Digital(u) && AtMostOne(f, u)
    ensures Replay(Decode(f, s, new').1, u, Contributes(f, s, u)) == Contributes(f, Decode(f, s, new').0, u)
  {
    var after := Decode(f, s, new').0;
    if i :| 0 <= i < f.count && Tells(f, s, new', u, i) {
      OnlyOneTells(f, s, new', u, i, Contributes(f, s, u));
      assert ElementActive(f, after, u, i) == (new'[i] != 0);
    } else {
      QuietReading(f, s, new', u, Contributes(f, s, u));
      forall k | 0 <= k < f.count ensures ElementActive(f, s, u, k) == ElementActive(f, after, u, k) {
        assert !Tells(f, s, new', u, k);
      }
      SameContribution(f, s, after, u);
    }
  }

  // ------------------------------------------------------------- array fields

  predicate Differs(from: seq<int>, other: seq<int>, v: int)
  {
    v != 0 && v in from && v !in other
  }

  /** Old minus new, or new minus old: every such value once and no other. */
  lemma {:induction false} ChangesAreExact(from: seq<int>, other: seq<int>, n: nat, v: int)
    requires n <= |from|
    ensures multiset(Changes(from, other, n))[v] == if Differs(from[..n], other, v) then 1 else 0
  {
    if n > 0 {
      ChangesAreExact(from, other, n - 1, v);
      assert from[..n] == from[..n - 1] + [from[n - 1]];
    }
  }

  lemma CountAppend<T>(a: seq<T>, b: seq<T>, x: T)
    requires |b| <= 1
    ensures multiset(a + b)[x] == multiset(a)[x] + if b != [] && b[0] == x then 1 else 0
  {
    if b == [] {
      assert a + b == a;
    } else {
      assert b == [b[0]];
    }
  }

  lemma ReplayOne(before: seq<Event>, news: seq<Event>, u: Usage, down: bool)
    requires |news| <= 1
    ensures Replay(before + news, u, down) ==
      if news != [] && Says(news[0], u).Some? then Says(news[0], u).value else Replay(before, u, down)
  {
    ReplayConcat(before, news, u, down);
    if news != [] { assert news[..0] == []; }
  }

  /** The values in one reading and not in the other whose announcement is `e`. */
  ghost function Announcing(f: InputField, from: seq<int>, other: seq<int>, e: Event): set<int>
  {
    set v | v in from && Differs(from, other, v) && e.Key? && KeyEvents(f, v, e.pressed) == [e]
  }

  lemma AnnounceNext(f: InputField, values: seq<int>, v: int, pressed: bool, e: Event)
    ensures multiset(Announce(f, values + [v], pressed))[e] ==
      multiset(Announce(f, values, pressed))[e] + if KeyEvents(f, v, pressed) == [e] then 1 else 0
  {
    assert (values + [v])[..|values|] == values;
    CountAppend(Announce(f, values, pressed), KeyEvents(f, v, pressed), e);
  }

  /** Value `n` is met for the first time and is not in the other reading. */
  predicate Fresh(from: seq<int>, other: seq<int>, n: nat)
    requires n < |from|
  {
    from[n] != 0 && from[n] !in from[..n] && from[n] !in other
  }

  lemma ChangesNext(f: InputField, from: seq<int>, other: seq<int>, n: nat, pressed: bool, e: Event)
    requires n < |from|
    ensures multiset(Announce(f, Changes(from, other, n + 1), pressed))[e] ==
      multiset(Announce(f, Changes(from, other, n), pressed))[e] +
      if Fresh(from, other, n) && KeyEvents(f, from[n], pressed) == [e] then 1 else 0
  {
    if Fresh(from, other, n) {
      assert Changes(from, other, n + 1) == Changes(from, other, n) + [from[n]];
      AnnounceNext(f, Changes(from, other, n), from[n], pressed, e);
    } else {
      assert Changes(from, other, n + 1) == Changes(from, other, n);
    }
  }

  lemma AnnouncingNext(f: InputField, from: seq<int>, other: seq<int>, n: nat, e: Event)
    requires n < |from| && e.Key?
    ensures |Announcing(f, from[..n + 1], other, e)| == |Announcing(f, from[..n], other, e)| +
      if Fresh(from, other, n) && KeyEvents(f, from[n], e.pressed) == [e] then 1 else 0
  {
    var v, before, after := from[n], Announcing(f, from[..n], other, e), Announcing(f, from[..n + 1], other, e);
    assert from[..n + 1] == from[..n] + [v];
    if Fresh(from, other, n) && KeyEvents(f, v, e.pressed) == [e] {
      assert after == before + {v};
    } else {
      assert after == before;
    }
  }

  ghost predicate GrowAlike(a: nat -> int, b: nat -> int, i: nat) { a(i + 1) - a(i) == b(i + 1) - b(i) }

  lemma {:induction false} SameGrowth(a: nat -> int, b: nat -> int, n: nat)
    requires a(0) == b(0) && forall i: nat :: i < n ==> GrowAlike(a, b, i)
    ensures a(n) == b(n)
    decreases n
  {
    if n > 0 {
      SameGrowth(a, b, n - 1);
      assert GrowAlike(a, b, n - 1);
    }
  }

  ghost function Announced(f: InputField, from: seq<int>, other: seq<int>, e: Event): nat -> int
    requires e.Key?
  {
    (n: nat) => if n <= |from| then multiset(Announce(f, Changes(from, other, n), e.pressed))[e] else 0
  }

  ghost function Voices(f: InputField, from: seq<int>, other: seq<int>, e: Event): nat -> int
  {
    (n: nat) => if n <= |from| then |Announcing(f, from[..n], other, e)| else 0
  }

  lemma AnnouncedGrow(f: InputField, from: seq<int>, other: seq<int>, e: Event, n: nat)
    requires e.Key? && n < |from|
    ensures GrowAlike(Announced(f, from, other, e), Voices(f, from, other, e), n)
  {
    ChangesNext(f, from, other, n, e.pressed, e);
    AnnouncingNext(f, from, other, n, e);
  }

  lemma AnnouncedStart(f: InputField, from: seq<int>, other: seq<int>, e: Event)
    requires e.Key?
    ensures Announced(f, from, other, e)(0) == Voices(f, from, other, e)(0)
  {
    assert Announcing(f, from[..0], other, e) == {};
  }

  lemma AnnouncedEnd(f: InputField, from: seq<int>, other: seq<int>, e: Event)
    requires e.Key?
    ensures Announced(f, from, other, e)(|from|) == multiset(Announce(f, Changes(from, other, |from|), e.pressed))[e]
    ensures Voices(f, from, other, e)(|from|) == |Announcing(f, from, other, e)|
  {
    assert from[..|from|] == from;
  }

  lemma AnnounceCounts(f: InputField, from: seq<int>, other: seq<int>, e: Event)
    requires e.Key?
    ensures multiset(Announce(f, Changes(from, other, |from|), e.pressed))[e] == |Announcing(f, from, other, e)|
  {
    forall n: nat | n < |from| { AnnouncedGrow(f, from, other, e, n); }
    AnnouncedStart(f, from, other, e);
    SameGrowth(Announced(f, from, other, e), Voices(f, from, other, e), |from|);
    AnnouncedEnd(f, from, other, e);
  }

  lemma {:induction false} AnnounceOnlyKeys(f: InputField, values: seq<int>, pressed: bool, e: Event)
    requires !e.Key? || e.pressed != pressed
    ensures multiset(Announce(f, values, pressed))[e] == 0
  {
    if values != [] {
      var n := |values| - 1;
      AnnounceOnlyKeys(f, values[..n], pressed, e);
      CountAppend(Announce(f, values[..n], pressed), KeyEvents(f, values[n], pressed), e);
    }
  }

  /** The presses are the new values and the releases the old ones: each event is announced
      once for every such value that stands for it, and nothing else is. */
  lemma ArrayEventsAreExact(f: InputField, s: FieldState, new': seq<int>, e: Event)
    requires Fits(f, s) && |new'| == f.count && !f.flags.variable && f.defaultUsagePage == KEYBOARD_PAGE
    requires !RollsOver(f, new')
    ensures multiset(Decode(f, s, new').1)[e] ==
      if !e.Key? then 0
      else if e.pressed then |Announcing(f, new', s.values, e)| else |Announcing(f, s.values, new', e)|
  {
    if e.Key? {
      if e.pressed {
        AnnounceCounts(f, new', s.values, e);
        AnnounceOnlyKeys(f, Changes(s.values, new', f.count), false, e);
      } else {
        AnnounceCounts(f, s.values, new', e);
        AnnounceOnlyKeys(f, Changes(new', s.values, f.count), true, e);
      }
    } else {
      AnnounceOnlyKeys(f, Changes(s.values, new', f.count), false, e);
      AnnounceOnlyKeys(f, Changes(new', s.values, f.count), true, e);
    }
  }

  // ------------------------------------------------------------- narrow arrays

  /** Readings of selectors of at most 16 bits with a non-negative logical minimum. */
  predicate Narrow(values: seq<int>)
  {
    forall i :: 0 <= i < |values| ==> 0 <= values[i] <= 0xFFFF
  }

  lemma NarrowReadings(f: InputField, payload: seq<u8>)
    requires Covers(f, payload) && f.bitSize <= 16 && f.logicalMin >= 0
    ensures Narrow(Readings(f, payload))
  {
    PowGrows(f.bitSize, 16);
    assert Pow2(16) == 0x1_0000 by { assert Pow2(8) == 0x100; PowAdds(8, 8); }
  }

  /** A key the field can name. */
  predicate Nameable(f: InputField, id: nat) { id != 0 && ArrayUsage(f, id).Some? }

  lemma NarrowAnnouncing(f: InputField, from: seq<int>, other: seq<int>, e: Event)
    requires Narrow(from) && f.defaultUsagePage == KEYBOARD_PAGE && e.Key?
    ensures |Announcing(f, from, other, e)| ==
      if e.application == f.application && Nameable(f, e.usage) && Differs(from, other, e.usage) then 1 else 0
  {
    forall v: int | v in from && v != 0
      ensures KeyEvents(f, v, e.pressed) == [e] <==> v == e.usage && e.application == f.application && Nameable(f, v)
    {
      assert AsU32(v) == v;
    }
    if e.application == f.application && Nameable(f, e.usage) && Differs(from, other, e.usage) {
      assert Announcing(f, from, other, e) == {e.usage};
    } else {
      assert Announcing(f, from, other, e) == {};
    }
  }

  /** In a report of narrow selectors every new key is pressed once and every old one
      released once. */
  lemma PayloadEventsAreExact(f: InputField, s: FieldState, payload: seq<u8>, e: Event)
    requires Fits(f, s) && Narrow(s.values) && Covers(f, payload) && !RollsOver(f, Readings(f, payload))
    requires !f.flags.variable && f.defaultUsagePage == KEYBOARD_PAGE && f.bitSize <= 16 && f.logicalMin >= 0
    ensures Narrow(Decode(f, s, Readings(f, payload)).0.values)
    ensures
      var new' := Readings(f, payload);
      multiset(Decode(f, s, new').1)[e] ==
        if e.Key? && e.application == f.application && Nameable(f, e.usage) &&
           (if e.pressed then Differs(new', s.values, e.usage) else Differs(s.values, new', e.usage))
        then 1 else 0
  {
    var new' := Readings(f, payload);
    NarrowReadings(f, payload);
    ArrayEventsAreExact(f, s, new', e);
    if e.Key? {
      if e.pressed { NarrowAnnouncing(f, new', s.values, e); } else { NarrowAnnouncing(f, s.values, new', e); }
    }
  }
}
