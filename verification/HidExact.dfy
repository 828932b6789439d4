/** The descriptor parser computes exactly what the list of items means. */
module HidExact {
  import opened Bits
  import opened HidItems
  import opened HidLayout
  import opened HidMeaning
  import opened HidParser
  import opened Nesting
  import opened Objects

  /** The settings the parser holds are those in force at `n`. */
  ghost predicate Holds(items: seq<Item>, n: nat, g: Global)
    requires n <= |items|
  {
    && g.usagePage == PageAt(items, n)
    && g.logicalMin == Given(items, n, 1) && g.logicalMax == Given(items, n, 2)
    && g.reportSize == Given(items, n, 7).raw && g.reportCount == Given(items, n, 9).raw
    && g.reportId == Given(items, n, 8).raw % 0x100
  }

  ghost predicate SavesAgree(items: seq<Item>, n: nat, p: Progress, pushes: seq<nat>)
    requires n <= |items|
  {
    Opens(Saving(items), n, pushes) && Stacked(pushes, p.globalStack, HoldsAt(items))
  }

  ghost function HoldsAt(items: seq<Item>): (nat, Global) -> bool
  {
    (n: nat, g: Global) => n <= |items| && Holds(items, n, g)
  }

  ghost predicate GlobalsAgree(items: seq<Item>, n: nat, p: Progress)
    requires n <= |items|
  {
    Holds(items, n, p.global) && exists pushes :: SavesAgree(items, n, p, pushes)
  }

  lemma GivenStays(items: seq<Item>, n: nat, tag: nat)
    requires n < |items| && !IsGlobal(items[n], tag) && !IsGlobal(items[n], 11)
    ensures Given(items, n + 1, tag) == Given(items, n, tag)
  {
    LastStays(Saving(items), Globals(items, tag), n);
  }

  lemma GivenHere(items: seq<Item>, n: nat, tag: nat)
    requires n < |items| && IsGlobal(items[n], tag)
    ensures Given(items, n + 1, tag) == items[n].value
  {
    LastIsHere(Saving(items), Globals(items, tag), n);
  }

  lemma GivenReturns(items: seq<Item>, p: nat, n: nat, tag: nat)
    requires n < |items| && IsGlobal(items[n], 11) && tag != 11
    requires Open(Saving(items), p, n) && Depth(Saving(items), p) + 1 == Depth(Saving(items), n)
    ensures Given(items, n + 1, tag) == Given(items, p, tag)
  {
    LastReturns(Saving(items), Globals(items, tag), p, n);
  }

  lemma HoldsStays(items: seq<Item>, n: nat, g: Global)
    requires n < |items| && Holds(items, n, g) && (items[n].kind == 1 ==> items[n].tag !in {0, 1, 2, 7, 8, 9, 11})
    ensures Holds(items, n + 1, g)
  {
    forall tag | tag in {0, 1, 2, 7, 8, 9} ensures Given(items, n + 1, tag) == Given(items, n, tag) {
      GivenStays(items, n, tag);
    }
  }

  /** A global item that sets something changes that setting alone. */
  lemma HoldsSet(items: seq<Item>, n: nat, p: Progress)
    requires n < |items| && Holds(items, n, p.global) && items[n].kind == 1 && items[n].tag in {0, 1, 2, 7, 8, 9}
    requires AfterItem(p, items[n]).Ok?
    ensures Holds(items, n + 1, AfterItem(p, items[n]).value.global)
  {
    GivenHere(items, n, items[n].tag);
    forall tag | tag in {0, 1, 2, 7, 8, 9} && tag != items[n].tag
      ensures Given(items, n + 1, tag) == Given(items, n, tag)
    {
      GivenStays(items, n, tag);
    }
  }

  lemma HoldsReturns(items: seq<Item>, p: nat, n: nat, g: Global)
    requires n < |items| && IsGlobal(items[n], 11)
    requires Open(Saving(items), p, n) && Depth(Saving(items), p) + 1 == Depth(Saving(items), n) && Holds(items, p, g)
    ensures Holds(items, n + 1, g)
  {
    forall tag | tag in {0, 1, 2, 7, 8, 9} ensures Given(items, n + 1, tag) == Given(items, p, tag) {
      GivenReturns(items, p, n, tag);
    }
  }

  /** What an item does to the saved settings. */
  predicate Saved(stack: seq<Global>, global: Global, i: Item, after: seq<Global>)
  {
    var step := if IsGlobal(i, 10) then 1 else if IsGlobal(i, 11) then -1 else 0;
    (step == -1 ==> stack != []) && after == Stepped(step, stack, global)
  }

  lemma SavesStep(items: seq<Item>, n: nat, p: Progress, q: Progress, pushes: seq<nat>) returns (next: seq<nat>)
    requires n < |items| && Holds(items, n, p.global) && SavesAgree(items, n, p, pushes)
    requires Saved(p.globalStack, p.global, items[n], q.globalStack)
    ensures SavesAgree(items, n + 1, q, next)
  {
    StackSteps(Saving(items)[n], n, pushes, p.globalStack, p.global, HoldsAt(items));
    next := OpenSteps(Saving(items), n, pushes);
  }

  lemma ItemSaves(p: Progress, i: Item)
    requires AfterItem(p, i).Ok?
    ensures Saved(p.globalStack, p.global, i, AfterItem(p, i).value.globalStack)
    ensures IsGlobal(i, 11) ==> AfterItem(p, i).value.global == p.globalStack[|p.globalStack| - 1]
    ensures !(i.kind == 1 && i.tag in {0, 1, 2, 7, 8, 9, 11}) ==> AfterItem(p, i).value.global == p.global
  {
  }

  lemma GlobalsStep(items: seq<Item>, n: nat, p: Progress)
    requires n < |items| && GlobalsAgree(items, n, p) && AfterItem(p, items[n]).Ok?
    ensures GlobalsAgree(items, n + 1, AfterItem(p, items[n]).value)
  {
    var q := AfterItem(p, items[n]).value;
    ItemSaves(p, items[n]);
    var pushes :| SavesAgree(items, n, p, pushes);
    var next := SavesStep(items, n, p, q, pushes);
    GlobalHolds(items, n, p, pushes);
  }

  lemma GlobalHolds(items: seq<Item>, n: nat, p: Progress, pushes: seq<nat>)
    requires n < |items| && Holds(items, n, p.global) && SavesAgree(items, n, p, pushes) && AfterItem(p, items[n]).Ok?
    ensures Holds(items, n + 1, AfterItem(p, items[n]).value.global)
  {
    if items[n].kind == 1 && items[n].tag in {0, 1, 2, 7, 8, 9} {
      HoldsSet(items, n, p);
    } else if IsGlobal(items[n], 11) {
      ItemSaves(p, items[n]);
      var top := |pushes| - 1;
      assert HoldsAt(items)(pushes[top], p.globalStack[top]);
      HoldsReturns(items, pushes[top], n, p.globalStack[top]);
    } else {
      ItemSaves(p, items[n]);
      HoldsStays(items, n, p.global);
    }
  }

  // ------------------------------------------------------------------- locals

  ghost predicate LocalsAgree(items: seq<Item>, n: nat, p: Progress)
    requires n <= |items|
  {
    var s := Scope(items, n);
    p.local == Local(Usages(items, s, n), LastUsage(items, s, n, 1), LastUsage(items, s, n, 2))
  }

  lemma UsageIsDecoded(items: seq<Item>, n: nat, g: Global)
    requires n < |items| && Holds(items, n, g)
    ensures DecodeUsage(items[n].value, g.usagePage) == UsageOf(items, n)
  {
  }

  lemma LocalItemSteps(items: seq<Item>, n: nat, p: Progress)
    requires n < |items| && items[n].kind == 2 && LocalsAgree(items, n, p) && Holds(items, n, p.global)
    ensures LocalsAgree(items, n + 1, AfterLocal(p, items[n].tag, items[n].value))
  {
    UsageIsDecoded(items, n, p.global);
  }

  lemma LocalsStep(items: seq<Item>, n: nat, p: Progress)
    requires n < |items| && LocalsAgree(items, n, p) && Holds(items, n, p.global) && AfterItem(p, items[n]).Ok?
    ensures LocalsAgree(items, n + 1, AfterItem(p, items[n]).value)
  {
    if items[n].kind == 2 { LocalItemSteps(items, n, p); }
  }

  // -------------------------------------------------------------- collections

  function Innermost(collections: seq<Option<nat>>): Option<nat>
  {
    if collections == [] then None else collections[|collections| - 1]
  }

  /** For each open collection the application in force where it began. */
  function Below(collections: seq<Option<nat>>): seq<Option<nat>>
  {
    ([None] + collections)[..|collections|]
  }

  ghost function WithinIs(items: seq<Item>): (nat, Option<nat>) -> bool
  {
    (n: nat, application: Option<nat>) => n <= |items| && Within(items, n) == application
  }

  ghost predicate GroupsAgree(items: seq<Item>, n: nat, collections: seq<Option<nat>>, begins: seq<nat>)
    requires n <= |items|
  {
    && Opens(Grouping(items), n, begins) && Stacked(begins, Below(collections), WithinIs(items))
    && Innermost(collections) == Within(items, n)
  }

  ghost predicate CollectionsAgree(items: seq<Item>, n: nat, p: Progress)
    requires n <= |items|
  {
    exists begins :: GroupsAgree(items, n, p.collections, begins)
  }

  /** What an item does to the open collections. */
  predicate Grouped(collections: seq<Option<nat>>, applications: nat, i: Item, after: seq<Option<nat>>)
  {
    var step := if Begins(i) then 1 else if Ends(i) then -1 else 0;
    && (step == -1 ==> collections != [])
    && after == Stepped(step, collections, if BeginsApplication(i) then Some(applications) else Innermost(collections))
  }

  lemma BelowSteps(step: int, collections: seq<Option<nat>>, top: Option<nat>)
    requires step == -1 ==> collections != []
    ensures Below(Stepped(step, collections, top)) == Stepped(step, Below(collections), Innermost(collections))
    ensures step == -1 ==> Innermost(Stepped(step, collections, top)) == Below(collections)[|collections| - 1]
  {
  }

  lemma ItemGroups(p: Progress, i: Item)
    requires AfterItem(p, i).Ok?
    ensures Grouped(p.collections, |p.applications|, i, AfterItem(p, i).value.collections)
  {
  }

  lemma WithinSteps(items: seq<Item>, n: nat, begins: seq<nat>)
    requires n < |items| && Opens(Grouping(items), n, begins) && (Ends(items[n]) ==> begins != [])
    ensures Within(items, n + 1) ==
      if BeginsApplication(items[n]) then Some(ApplicationsBefore(items, n))
      else if Ends(items[n]) then Within(items, begins[|begins| - 1])
      else Within(items, n)
  {
    var steps, marks := Grouping(items), Applications(items);
    if BeginsApplication(items[n]) {
      LastIsHere(steps, marks, n);
    } else if Ends(items[n]) {
      LastReturns(steps, marks, begins[|begins| - 1], n);
    } else {
      LastStays(steps, marks, n);
    }
  }

  lemma GroupsStep(items: seq<Item>, n: nat, collections: seq<Option<nat>>, after: seq<Option<nat>>, begins: seq<nat>)
    returns (next: seq<nat>)
    requires n < |items| && GroupsAgree(items, n, collections, begins)
    requires Grouped(collections, ApplicationsBefore(items, n), items[n], after)
    ensures GroupsAgree(items, n + 1, after, next)
  {
    var step := Grouping(items)[n];
    var top := if BeginsApplication(items[n]) then Some(ApplicationsBefore(items, n)) else Innermost(collections);
    BelowSteps(step, collections, top);
    StackSteps(step, n, begins, Below(collections), Innermost(collections), WithinIs(items));
    WithinSteps(items, n, begins);
    if Ends(items[n]) {
      assert WithinIs(items)(begins[|begins| - 1], Below(collections)[|begins| - 1]);
    }
    next := OpenSteps(Grouping(items), n, begins);
  }

  lemma CollectionsStep(items: seq<Item>, n: nat, p: Progress)
    requires n < |items| && CollectionsAgree(items, n, p) && |p.applications| == ApplicationsBefore(items, n)
    requires AfterItem(p, items[n]).Ok?
    ensures CollectionsAgree(items, n + 1, AfterItem(p, items[n]).value)
  {
    ItemGroups(p, items[n]);
    var begins :| GroupsAgree(items, n, p.collections, begins);
    var next := GroupsStep(items, n, p.collections, AfterItem(p, items[n]).value.collections, begins);
  }

  // ------------------------------------------------------------- applications

  lemma ApplicationsStep(items: seq<Item>, n: nat, p: Progress)
    requires n < |items| && ApplicationsAre(items, n, p.applications) && LocalsAgree(items, n, p)
    requires AfterItem(p, items[n]).Ok?
    ensures ApplicationsAre(items, n + 1, AfterItem(p, items[n]).value.applications)
  {
    ItemApplies(p, items[n]);
    var after := AfterItem(p, items[n]).value.applications;
    forall j | 0 <= j < n && BeginsApplication(items[j]) ensures IsApplication(items, j, after) {
      assert IsApplication(items, j, p.applications);
    }
    if BeginsApplication(items[n]) { assert IsApplication(items, n, after); }
  }

  lemma ItemApplies(p: Progress, i: Item)
    requires AfterItem(p, i).Ok?
    ensures AfterItem(p, i).value.applications ==
      if BeginsApplication(i) then p.applications + [Application(FirstUsage(p.local), Classify(FirstUsage(p.local)))]
      else p.applications
  {
  }

  // ------------------------------------------------------------------- inputs

  lemma FlagsAreBits(raw: nat)
    ensures DecodeFlags(Word(raw)) == FlagsOf(raw)
  {
    LowBit(raw, 0);
    LowBit(raw, 1);
    LowBit(raw, 2);
    LowBit(raw, 6);
  }

  lemma LowBit(raw: nat, k: nat)
    requires k < 16
    ensures Bit(Word(raw), k) == Bit(raw, k)
  {
    PowAdds(8, 8);
    assert Pow2(16) == 0x1_0000;
    AddHighPart(Word(raw), raw / 0x1_0000, 16, k);
  }

  lemma DeclaredIsMeant(items: seq<Item>, n: nat, p: Progress)
    requires n < |items| && Holds(items, n, p.global) && LocalsAgree(items, n, p) && CollectionsAgree(items, n, p)
    ensures Declared(p, DecodeFlags(Word(items[n].value.raw))) == MeantInput(items, n)
  {
    FlagsAreBits(items[n].value.raw);
    var begins :| GroupsAgree(items, n, p.collections, begins);
    assert Enclosing(p) == Innermost(p.collections);
  }

  lemma ItemDeclares(p: Progress, i: Item)
    requires AfterItem(p, i).Ok?
    ensures AfterItem(p, i).value.inputs ==
      if IsInput(i) then p.inputs + [Declared(p, DecodeFlags(Word(i.value.raw)))] else p.inputs
    ensures AfterItem(p, i).value.usesReportIds <==> p.usesReportIds || IsGlobal(i, 8)
  {
  }

  /** After the first `n` items the parser holds what they mean. */
  ghost predicate Agrees(items: seq<Item>, n: nat, p: Progress)
    requires n <= |items|
  {
    && GlobalsAgree(items, n, p) && LocalsAgree(items, n, p) && CollectionsAgree(items, n, p)
    && ApplicationsAre(items, n, p.applications) && p.inputs == MeantInputs(items, n)
    && (p.usesReportIds <==> HasReportIds(items, n))
  }

  lemma ItemAgrees(items: seq<Item>, n: nat, p: Progress)
    requires n < |items| && Agrees(items, n, p) && AfterItem(p, items[n]).Ok?
    ensures Agrees(items, n + 1, AfterItem(p, items[n]).value)
  {
    GlobalsStep(items, n, p);
    LocalsStep(items, n, p);
    CollectionsStep(items, n, p);
    ApplicationsStep(items, n, p);
    ItemDeclares(p, items[n]);
    DeclaredIsMeant(items, n, p);
    IdsStep(items, n);
  }

  lemma IdsStep(items: seq<Item>, n: nat)
    requires n < |items|
    ensures HasReportIds(items, n + 1) <==> HasReportIds(items, n) || IsGlobal(items[n], 8)
  {
  }

  // ----------------------------------------------------------------- refusals

  lemma PlaceIndex(reports: seq<ReportLayout>, x: Input, id: nat)
    ensures IndexOf(Place(reports, x), id).Some? <==> IndexOf(reports, id).Some? || x.reportId == id
  {
    var after, at := Place(reports, x), IndexOf(reports, x.reportId);
    var was, now := IndexOf(reports, id), IndexOf(after, id);
    if was.Some? { assert after[was.value].reportId == id; }
    if x.reportId == id { assert after[if at.Some? then at.value else |reports|].reportId == id; }
    if now.Some? && now.value < |reports| { assert reports[now.value].reportId == id; }
  }

  ghost predicate OneForEachId(reports: seq<ReportLayout>, inputs: seq<Input>)
  {
    |reports| == |Ids(inputs)| && forall id: nat :: IndexOf(reports, id).Some? <==> id in Ids(inputs)
  }

  lemma PlaceKeepsOneForEachId(reports: seq<ReportLayout>, inputs: seq<Input>, x: Input)
    requires OneForEachId(reports, inputs)
    ensures OneForEachId(Place(reports, x), inputs + [x])
  {
    IdsGrow(inputs, x);
    forall id: nat ensures IndexOf(Place(reports, x), id).Some? <==> id in Ids(inputs + [x]) {
      PlaceIndex(reports, x, id);
    }
    assert IndexOf(reports, x.reportId).Some? <==> x.reportId in Ids(inputs);
    if x.reportId in Ids(inputs) { assert Ids(inputs + [x]) == Ids(inputs); }
  }

  lemma {:induction false} ReportsAreIds(inputs: seq<Input>)
    ensures OneForEachId(PlaceAll(inputs), inputs)
  {
    if inputs != [] {
      var n := |inputs| - 1;
      ReportsAreIds(inputs[..n]);
      PlaceKeepsOneForEachId(PlaceAll(inputs[..n]), inputs[..n], inputs[n]);
      assert inputs[..n] + [inputs[n]] == inputs;
    }
  }

  lemma IdsGrow(inputs: seq<Input>, x: Input)
    ensures Ids(inputs + [x]) == Ids(inputs) + {x.reportId as nat}
  {
    forall y | y in inputs + [x] ensures y in inputs || y == x {}
    assert x in inputs + [x];
  }

  lemma CountsGrow(inputs: seq<Input>, x: Input)
    ensures FieldCount(inputs + [x]) == FieldCount(inputs) + if x.field.Some? then 1 else 0
    ensures ElementCount(inputs + [x]) == ElementCount(inputs) + if x.field.Some? then x.field.value.count else 0
  {
    var all := inputs + [x];
    assert all[..|all| - 1] == inputs && all[|all| - 1] == x;
  }

  lemma RoomIsCounted(inputs: seq<Input>, x: Input)
    ensures Room(inputs, x) <==>
      && |PlaceAll(inputs)| + (if IndexOf(PlaceAll(inputs), x.reportId).Some? then 0 else 1) <= MAX_REPORTS
      && BitsFor(inputs, x.reportId) + x.bits <= MAX_REPORT_BITS
      && (x.field.Some? ==> FieldCount(inputs) + 1 <= MAX_INPUT_FIELDS &&
                            ElementCount(inputs) + x.field.value.count <= MAX_INPUT_ELEMENTS)
  {
    ReportsAreIds(inputs);
    IdsGrow(inputs, x);
    IdsFit(inputs, x.reportId);
    OneMoreInput(inputs, x, x.reportId);
    CountsGrow(inputs, x);
  }

  lemma RoomIsExact(p: Progress, flags: Flags)
    requires WithinLimits(p)
    ensures InputError(p, flags) ==
      if !(1 <= p.global.reportSize <= 32) then Some(InvalidReportSize)
      else if !Room(p.inputs, Declared(p, flags)) then Some(LayoutLimitExceeded)
      else None
  {
    RoomIsCounted(p.inputs, Declared(p, flags));
  }

  lemma IdsFit(inputs: seq<Input>, id: nat)
    ensures |Ids(inputs) + {id}| == |Ids(inputs)| + if id in Ids(inputs) then 0 else 1
  {
    if id in Ids(inputs) { assert Ids(inputs) + {id} == Ids(inputs); }
  }

  lemma DepthsAgree(items: seq<Item>, n: nat, p: Progress)
    requires n <= |items| && GlobalsAgree(items, n, p) && CollectionsAgree(items, n, p)
    ensures Depth(Saving(items), n) == |p.globalStack| && Depth(Grouping(items), n) == |p.collections|
  {
    var pushes :| SavesAgree(items, n, p, pushes);
    var begins :| GroupsAgree(items, n, p.collections, begins);
  }

  /** An item is refused exactly when and as the list says. */
  lemma RefusalIsExact(items: seq<Item>, n: nat, p: Progress)
    requires n < |items| && Agrees(items, n, p) && Inv(p)
    ensures
      var after, refusal := AfterItem(p, items[n]), Refusal(items, n);
      if refusal.Some? then after == Err(refusal.value) else after.Ok?
  {
    DepthsAgree(items, n, p);
    if IsInput(items[n]) {
      DeclaredIsMeant(items, n, p);
      RoomIsExact(p, DecodeFlags(Word(items[n].value.raw)));
    }
  }

  // --------------------------------------------------------------- the result

  ghost function RefusalsOf(items: seq<Item>): Refusals
  {
    (n: nat) => if n < |items| then Refusal(items, n) else None
  }

  ghost function AgreesAt(items: seq<Item>): Holding
  {
    (n: nat, p: Progress) => n <= |items| && Agrees(items, n, p) && Inv(p)
  }

  lemma AgreesOnward(items: seq<Item>, n: nat, p: Progress)
    requires n < |items| && Agrees(items, n, p) && Inv(p) && AfterItem(p, items[n]).Ok?
    ensures AgreesAt(items)(n + 1, AfterItem(p, items[n]).value)
  {
    ItemAgrees(items, n, p);
    ItemKeepsInv(p, items[n]);
  }

  lemma ItemDecides(items: seq<Item>, n: nat, p: Progress)
    requires n < |items| && Agrees(items, n, p) && Inv(p)
    ensures DecidesAt(items, n, p, AgreesAt(items), Refusal(items, n))
  {
    RefusalIsExact(items, n, p);
    if AfterItem(p, items[n]).Ok? { AgreesOnward(items, n, p); }
  }

  lemma ItemsDecide(items: seq<Item>)
    ensures Decides(items, AgreesAt(items), RefusalsOf(items))
  {
    forall n: nat, p | n < |items| && AgreesAt(items)(n, p)
      ensures DecidesAt(items, n, p, AgreesAt(items), RefusalsOf(items)(n))
    {
      ItemDecides(items, n, p);
    }
  }

  lemma StartAgrees(items: seq<Item>)
    ensures Agrees(items, 0, START)
  {
    assert SavesAgree(items, 0, START, []);
    assert GroupsAgree(items, 0, START.collections, []);
  }

  /** The layout a list of items declares: its applications, and for each report id with any
      bits one report of exactly that id's Input items in order. */
  ghost predicate LayoutIs(items: seq<Item>, layout: DeviceLayout)
  {
    var inputs := MeantInputs(items, |items|);
    && ApplicationsAre(items, |items|, layout.applications)
    && (layout.usesReportIds <==> HasReportIds(items, |items|))
    && (forall r :: r in layout.reports ==> IsReportOf(r, inputs))
    && Distinct(layout.reports)
    && forall id: nat :: IndexOf(layout.reports, id).Some? <==> BitsFor(inputs, id) != 0
  }

  /** What parsing a descriptor comes to: the first refused item decides, then a torn last
      item, an open collection, data without an id beside numbered reports; otherwise the
      declared layout. */
  ghost predicate Means(descriptor: seq<u8>, r: Result<DeviceLayout, DescriptorError>)
  {
    var items, whole := ReadItems(descriptor, 0).0, ReadItems(descriptor, 0).1;
    if exists k: nat :: FirstRefused(RefusalsOf(items), 0, |items|, k) then
      exists k: nat :: FirstRefused(RefusalsOf(items), 0, |items|, k) && r == Err(Refusal(items, k).value)
    else if !whole then r == Err(TruncatedItem)
    else if Depth(Grouping(items), |items|) != 0 then r == Err(UnclosedCollection)
    else if HasReportIds(items, |items|) && BitsFor(MeantInputs(items, |items|), 0) != 0 then r == Err(MixedReportIds)
    else r.Ok? && LayoutIs(items, r.value)
  }

  ghost predicate Carries(reports: seq<ReportLayout>, id: nat)
  {
    exists i :: 0 <= i < |reports| && reports[i].reportId == id && reports[i].inputBits != 0
  }

  lemma ReportsHaveBits(reports: seq<ReportLayout>, inputs: seq<Input>, id: nat)
    requires Groups(reports, inputs)
    ensures BitsFor(inputs, id) != 0 <==> Carries(reports, id)
  {
    if Carries(reports, id) {
      var i :| 0 <= i < |reports| && reports[i].reportId == id && reports[i].inputBits != 0;
      assert IsReportOf(reports[i], inputs);
    }
    if BitsFor(inputs, id) != 0 {
      if !Declares(inputs, id) { UndeclaredIsEmpty(inputs, id); }
      var i := IndexOf(reports, id).value;
      assert IsReportOf(reports[i], inputs);
    }
  }

  lemma KeptHaveBits(inputs: seq<Input>, id: nat)
    ensures IndexOf(NonEmpty(PlaceAll(inputs)), id).Some? <==> BitsFor(inputs, id) != 0
  {
    var reports := PlaceAll(inputs);
    var kept := NonEmpty(reports);
    PlaceAllGroupsById(inputs);
    ReportsHaveBits(reports, inputs, id);
    NonEmptyKeeps(reports);
    if BitsFor(inputs, id) != 0 {
      var i :| 0 <= i < |reports| && reports[i].reportId == id && reports[i].inputBits != 0;
      assert reports[i] in kept;
    }
    var at := IndexOf(kept, id);
    if at.Some? { assert kept[at.value] in reports; }
  }

  lemma FinishIsExact(items: seq<Item>, p: Progress)
    requires Agrees(items, |items|, p)
    ensures
      var r := Finish(p);
      if Depth(Grouping(items), |items|) != 0 then r == Err(UnclosedCollection)
      else if HasReportIds(items, |items|) && BitsFor(MeantInputs(items, |items|), 0) != 0 then r == Err(MixedReportIds)
      else r.Ok? && LayoutIs(items, r.value)
  {
    DepthsAgree(items, |items|, p);
    var reports := PlaceAll(p.inputs);
    PlaceAllGroupsById(p.inputs);
    ReportsHaveBits(reports, p.inputs, 0);
    NonEmptyKeeps(reports);
    NonEmptyKeepsDistinct(reports);
    forall id: nat { KeptHaveBits(p.inputs, id); }
  }

  /** Parsing comes to exactly what the items mean. */
  lemma ParseIsExact(descriptor: seq<u8>)
    ensures Means(descriptor, HidParser.Parse(descriptor))
  {
    var items := ReadItems(descriptor, 0).0;
    StartAgrees(items);
    StartInv();
    ItemsDecide(items);
    InterpretAppliesItems(START, descriptor, 0);
    ApplyDecides(items, 0, START, AgreesAt(items), RefusalsOf(items));
    assert items[0..] == items;
    var r := Apply(START, items);
    if r.Ok? { FinishIsExact(items, r.value); }
  }
}
