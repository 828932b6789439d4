/** Interpreting a HID report descriptor item by item. */
module HidParser {
  import opened Bits
  import opened HidLayout
  import opened LittleEndian
  import opened Objects

  datatype ItemValue = ItemValue(raw: nat, size: nat)

  datatype Item = Item(kind: nat, tag: nat, value: ItemValue)

  datatype Global = Global(
    usagePage: nat, logicalMin: ItemValue, logicalMax: ItemValue, reportSize: nat, reportCount: nat, reportId: u8)

  datatype Local = Local(usages: seq<Usage>, usageMin: Option<Usage>, usageMax: Option<Usage>)

  const NO_LOCALS: Local := Local([], None, None)
  const NO_GLOBALS: Global := Global(0, ItemValue(0, 0), ItemValue(0, 0), 0, 0, 0)

  function Word(raw: nat): nat { raw % 0x1_0000 }

  function TwosComplement(x: nat, half: nat): int
  {
    if x < half then x else x - 2 * half
  }

  function Signed(v: ItemValue): int
  {
    if v.size == 1 then TwosComplement(v.raw % 0x100, 0x80)
    else if v.size == 2 then TwosComplement(Word(v.raw), 0x8000)
    else if v.size == 4 then TwosComplement(v.raw % 0x1_0000_0000, 0x8000_0000)
    else 0
  }

  function DecodeUsage(v: ItemValue, page: nat): Usage
  {
    if v.size == 4 then Usage(Word(v.raw / 0x1_0000), Word(v.raw)) else Usage(page, Word(v.raw))
  }

  function DecodeFlags(raw: nat): Flags
  {
    Flags(Bit(raw, 0) == 1, Bit(raw, 1) == 1, Bit(raw, 2) == 1, Bit(raw, 6) == 1)
  }

  function Classify(usage: Option<Usage>): Kind
  {
    if usage == Some(Usage(1, 2)) then Mouse
    else if usage == Some(Usage(1, 4)) then Joystick
    else if usage == Some(Usage(1, 5)) then Gamepad
    else if usage == Some(Usage(1, 6)) then Keyboard
    else OtherKind
  }

  // ---------------------------------------------------------- interpretation

  /** What has been read so far; the Input items are kept as they were declared. */
  datatype Progress = Progress(
    global: Global,
    globalStack: seq<Global>,
    local: Local,
    collections: seq<Option<nat>>,
    applications: seq<Application>,
    inputs: seq<Input>,
    usesReportIds: bool)

  const START: Progress := Progress(NO_GLOBALS, [], NO_LOCALS, [], [], [], false)

  function Enclosing(p: Progress): Option<nat>
  {
    if p.collections == [] then None else p.collections[|p.collections| - 1]
  }

  /** The Input item declared by the current global and local state. */
  function Declared(p: Progress, flags: Flags): Input
  {
    var g := p.global;
    var logicalMin := Signed(g.logicalMin);
    var field := InputField(0, g.reportSize, g.reportCount, logicalMin,
      if logicalMin < 0 then Signed(g.logicalMax) else g.logicalMax.raw,
      flags, p.local.usages, p.local.usageMin, p.local.usageMax, g.usagePage, Enclosing(p));
    Input(g.reportId, g.reportSize * g.reportCount, if flags.constant || g.reportCount == 0 then None else Some(field))
  }

  function InputError(p: Progress, flags: Flags): Option<DescriptorError>
  {
    var x := Declared(p, flags);
    if p.global.reportSize == 0 || p.global.reportSize > 32 then Some(InvalidReportSize)
    else if IndexOf(PlaceAll(p.inputs), x.reportId).None? && |PlaceAll(p.inputs)| == MAX_REPORTS then
      Some(LayoutLimitExceeded)
    else if BitsFor(p.inputs, x.reportId) + x.bits > MAX_REPORT_BITS then Some(LayoutLimitExceeded)
    else if x.field.None? then None
    else if FieldCount(p.inputs) == MAX_INPUT_FIELDS then Some(LayoutLimitExceeded)
    else if ElementCount(p.inputs) + x.field.value.count > MAX_INPUT_ELEMENTS then Some(LayoutLimitExceeded)
    else None
  }

  function AfterInput(p: Progress, flags: Flags): Result<Progress, DescriptorError>
  {
    var error := InputError(p, flags);
    if error.Some? then Err(error.value) else Ok(p.(inputs := p.inputs + [Declared(p, flags)]))
  }

  function FirstUsage(local: Local): Option<Usage>
  {
    if local.usages != [] then Some(local.usages[0]) else local.usageMin
  }

  function AfterBegin(p: Progress, kind: nat): Result<Progress, DescriptorError>
  {
    if |p.collections| == MAX_COLLECTION_DEPTH then Err(CollectionDepthExceeded)
    else if kind != 1 then Ok(p.(collections := p.collections + [Enclosing(p)]))
    else if |p.applications| == MAX_APPLICATIONS then Err(LayoutLimitExceeded)
    else
      var usage := FirstUsage(p.local);
      Ok(p.(collections := p.collections + [Some(|p.applications|)],
            applications := p.applications + [Application(usage, Classify(usage))]))
  }

  function AfterEnd(p: Progress): Result<Progress, DescriptorError>
  {
    if p.collections == [] then Err(CollectionStackUnderflow)
    else Ok(p.(collections := p.collections[..|p.collections| - 1]))
  }

  function AfterMain(p: Progress, tag: nat, v: ItemValue): Result<Progress, DescriptorError>
  {
    var r := if tag == 8 then AfterInput(p, DecodeFlags(Word(v.raw)))
             else if tag == 10 then AfterBegin(p, v.raw % 0x100)
             else if tag == 12 then AfterEnd(p)
             else Ok(p);
    if r.Ok? then Ok(r.value.(local := NO_LOCALS)) else r
  }

  function AfterGlobal(p: Progress, tag: nat, v: ItemValue): Result<Progress, DescriptorError>
  {
    match tag
    case 0 => Ok(p.(global := p.global.(usagePage := Word(v.raw))))
    case 1 => Ok(p.(global := p.global.(logicalMin := v)))
    case 2 => Ok(p.(global := p.global.(logicalMax := v)))
    case 7 => Ok(p.(global := p.global.(reportSize := v.raw)))
    case 8 =>
      if v.raw == 0 || v.raw > 0xFF then Err(InvalidReportId)
      else Ok(p.(global := p.global.(reportId := v.raw), usesReportIds := true))
    case 9 => Ok(p.(global := p.global.(reportCount := v.raw)))
    case 10 =>
      if |p.globalStack| == MAX_GLOBAL_STACK_DEPTH then Err(GlobalStackOverflow)
      else Ok(p.(globalStack := p.globalStack + [p.global]))
    case 11 =>
      if p.globalStack == [] then Err(GlobalStackUnderflow)
      else
        var top := |p.globalStack| - 1;
        Ok(p.(global := p.globalStack[top], globalStack := p.globalStack[..top]))
    case _ => Ok(p)
  }

  function AfterLocal(p: Progress, tag: nat, v: ItemValue): Progress
  {
    var usage := DecodeUsage(v, p.global.usagePage);
    match tag
    case 0 => p.(local := p.local.(usages := p.local.usages + [usage]))
    case 1 => p.(local := p.local.(usageMin := Some(usage)))
    case 2 => p.(local := p.local.(usageMax := Some(usage)))
    case _ => p
  }

  function AfterItem(p: Progress, item: Item): Result<Progress, DescriptorError>
  {
    match item.kind
    case 0 => AfterMain(p, item.tag, item.value)
    case 1 => AfterGlobal(p, item.tag, item.value)
    case 2 => Ok(AfterLocal(p, item.tag, item.value))
    case _ => Ok(p)
  }

  /** The item at a position and where the next one starts; long items carry nothing. */
  function NextItem(descriptor: seq<u8>, cursor: nat): (r: Result<(Option<Item>, nat), DescriptorError>)
    requires cursor < |descriptor|
    ensures r.Ok? ==> cursor < r.value.1 <= |descriptor|
  {
    var prefix := descriptor[cursor];
    if prefix == 0xFE then
      if cursor + 3 > |descriptor| then Err(TruncatedItem)
      else
        var end := cursor + 3 + descriptor[cursor + 1];
        if end > |descriptor| then Err(TruncatedItem) else Ok((None, end))
    else
      var size := if prefix % 4 == 3 then 4 else prefix % 4;
      var end := cursor + 1 + size;
      if end > |descriptor| then Err(TruncatedItem)
      else Ok((Some(Item((prefix / 4) % 4, prefix / 16, ItemValue(FromBytes(descriptor[cursor + 1..end]), size))), end))
  }

  function Interpret(p: Progress, descriptor: seq<u8>, cursor: nat): Result<Progress, DescriptorError>
    decreases |descriptor| - cursor
  {
    if cursor >= |descriptor| then Ok(p)
    else
      var next := NextItem(descriptor, cursor);
      if next.Err? then Err(next.error)
      else if next.value.0.None? then Interpret(p, descriptor, next.value.1)
      else
        var after := AfterItem(p, next.value.0.value);
        if after.Err? then after else Interpret(after.value, descriptor, next.value.1)
  }

  function Finish(p: Progress): Result<DeviceLayout, DescriptorError>
  {
    var reports := PlaceAll(p.inputs);
    if p.collections != [] then Err(UnclosedCollection)
    else if p.usesReportIds && (exists i :: 0 <= i < |reports| && reports[i].reportId == 0 && reports[i].inputBits != 0)
    then Err(MixedReportIds)
    else Ok(DeviceLayout(p.applications, NonEmpty(reports), p.usesReportIds))
  }

  // ---------------------------------------------------------------- soundness

  predicate Nested(p: Progress)
  {
    && |p.globalStack| <= MAX_GLOBAL_STACK_DEPTH && |p.collections| <= MAX_COLLECTION_DEPTH
    && |p.applications| <= MAX_APPLICATIONS
    && forall k :: 0 <= k < |p.collections| ==> p.collections[k].Some? ==> p.collections[k].value < |p.applications|
  }

  predicate WithinLimits(p: Progress)
  {
    && |PlaceAll(p.inputs)| <= MAX_REPORTS
    && FieldCount(p.inputs) <= MAX_INPUT_FIELDS && ElementCount(p.inputs) <= MAX_INPUT_ELEMENTS
    && forall k :: 0 <= k < |p.inputs| ==> InputOk(p.inputs[k], |p.applications|)
  }

  ghost predicate BitsWithin(inputs: seq<Input>)
  {
    forall id: nat :: BitsFor(inputs, id) <= MAX_REPORT_BITS
  }

  /** Until a report id is declared, everything belongs to report zero. */
  predicate Numbered(p: Progress)
  {
    !p.usesReportIds ==>
      && p.global.reportId == 0
      && (forall k :: 0 <= k < |p.globalStack| ==> p.globalStack[k].reportId == 0)
      && (forall k :: 0 <= k < |p.inputs| ==> p.inputs[k].reportId == 0)
  }

  ghost predicate Inv(p: Progress)
  {
    Nested(p) && WithinLimits(p) && BitsWithin(p.inputs) && Numbered(p)
  }

  lemma InputKeepsInv(p: Progress, flags: Flags)
    requires Inv(p) && InputError(p, flags).None?
    ensures Inv(AfterInput(p, flags).value)
  {
    var x := Declared(p, flags);
    var all := p.inputs + [x];
    assert all[..|all| - 1] == p.inputs;
    forall id: nat ensures BitsFor(all, id) <= MAX_REPORT_BITS { OneMoreInput(p.inputs, x, id); }
    assert x.field.Some? ==> FieldBits(x.field.value) == x.bits;
  }

  lemma BeginKeepsInv(p: Progress, kind: nat)
    requires Inv(p) && AfterBegin(p, kind).Ok?
    ensures Inv(AfterBegin(p, kind).value)
  {
    var q := AfterBegin(p, kind).value;
    forall k | 0 <= k < |q.inputs| ensures InputOk(q.inputs[k], |q.applications|) {
      assert InputOk(p.inputs[k], |p.applications|);
    }
  }

  lemma MainKeepsInv(p: Progress, tag: nat, v: ItemValue)
    requires Inv(p) && AfterMain(p, tag, v).Ok?
    ensures Inv(AfterMain(p, tag, v).value)
  {
    if tag == 8 {
      InputKeepsInv(p, DecodeFlags(Word(v.raw)));
    } else if tag == 10 {
      BeginKeepsInv(p, v.raw % 0x100);
    }
  }

  /** A global item touches only the global state. */
  lemma GlobalFrame(p: Progress, tag: nat, v: ItemValue)
    requires AfterGlobal(p, tag, v).Ok? && |p.globalStack| <= MAX_GLOBAL_STACK_DEPTH && Numbered(p)
    ensures
      var q := AfterGlobal(p, tag, v).value;
      && q == p.(global := q.global, globalStack := q.globalStack, usesReportIds := q.usesReportIds)
      && |q.globalStack| <= MAX_GLOBAL_STACK_DEPTH && Numbered(q)
  {
  }

  lemma GlobalKeepsInv(p: Progress, tag: nat, v: ItemValue)
    requires Nested(p) && WithinLimits(p) && BitsWithin(p.inputs) && Numbered(p) && AfterGlobal(p, tag, v).Ok?
    ensures Inv(AfterGlobal(p, tag, v).value)
  {
    GlobalFrame(p, tag, v);
    SameInputsKeepInv(p, AfterGlobal(p, tag, v).value);
  }

  lemma SameInputsKeepInv(p: Progress, q: Progress)
    requires Inv(p) && q.inputs == p.inputs && q.applications == p.applications && q.collections == p.collections
    requires |q.globalStack| <= MAX_GLOBAL_STACK_DEPTH && Numbered(q)
    ensures Inv(q)
  {
  }

  lemma LocalKeepsInv(p: Progress, tag: nat, v: ItemValue)
    requires Inv(p)
    ensures Inv(AfterLocal(p, tag, v))
  {
    var q := AfterLocal(p, tag, v);
    assert q == p.(local := q.local);
  }

  lemma ItemKeepsInv(p: Progress, item: Item)
    requires Inv(p) && AfterItem(p, item).Ok?
    ensures Inv(AfterItem(p, item).value)
  {
    if item.kind == 0 {
      MainKeepsInv(p, item.tag, item.value);
    } else if item.kind == 1 {
      GlobalKeepsInv(p, item.tag, item.value);
    } else if item.kind == 2 {
      LocalKeepsInv(p, item.tag, item.value);
    }
  }

  lemma {:induction false} InterpretKeepsInv(p: Progress, descriptor: seq<u8>, cursor: nat)
    requires Inv(p) && Interpret(p, descriptor, cursor).Ok?
    ensures Inv(Interpret(p, descriptor, cursor).value)
    decreases |descriptor| - cursor
  {
    if cursor < |descriptor| {
      var next := NextItem(descriptor, cursor).value;
      if next.0.None? {
        InterpretKeepsInv(p, descriptor, next.1);
      } else {
        ItemKeepsInv(p, next.0.value);
        InterpretKeepsInv(AfterItem(p, next.0.value).value, descriptor, next.1);
      }
    }
  }

  lemma ReportIsSound(p: Progress, r: ReportLayout)
    requires Inv(p) && Finish(p).Ok? && r in NonEmpty(PlaceAll(p.inputs))
    ensures ReportSound(r, Finish(p).value)
  {
    var reports := PlaceAll(p.inputs);
    PlaceAllGroupsById(p.inputs);
    NonEmptyKeeps(reports);
    var i :| 0 <= i < |reports| && reports[i] == r;
    assert IsReportOf(reports[i], p.inputs);
    FieldsForIsOrdered(p.inputs, r.reportId, |p.applications|);
    if !p.usesReportIds && r.reportId != 0 { UndeclaredIsEmpty(p.inputs, r.reportId); }
  }

  /** Whatever is accepted is sound. */
  lemma FinishIsSound(p: Progress)
    requires Inv(p) && Finish(p).Ok?
    ensures Sound(Finish(p).value)
  {
    var reports := PlaceAll(p.inputs);
    PlaceAllGroupsById(p.inputs);
    PlaceAllCounts(p.inputs);
    NonEmptyKeeps(reports);
    NonEmptyKeepsDistinct(reports);
    NonEmptyTotal(reports, Fields());
    NonEmptyTotal(reports, Elements());
    forall i | 0 <= i < |NonEmpty(reports)| ensures ReportSound(NonEmpty(reports)[i], Finish(p).value) {
      ReportIsSound(p, NonEmpty(reports)[i]);
    }
  }

  /** The layout of a descriptor. */
  function Parse(descriptor: seq<u8>): Result<DeviceLayout, DescriptorError>
  {
    var end := Interpret(START, descriptor, 0);
    if end.Err? then Err(end.error) else Finish(end.value)
  }

  /** Every accepted descriptor yields a sound layout whose reports are exactly the declared
      Input items of their ids, each field behind everything declared before it. */
  lemma ParseIsSound(descriptor: seq<u8>)
    requires Parse(descriptor).Ok?
    ensures Sound(Parse(descriptor).value)
    ensures Interpret(START, descriptor, 0).Ok?
    ensures forall r :: r in Parse(descriptor).value.reports ==>
      IsReportOf(r, Interpret(START, descriptor, 0).value.inputs)
  {
    StartInv();
    InterpretKeepsInv(START, descriptor, 0);
    var p := Interpret(START, descriptor, 0).value;
    FinishIsSound(p);
    PlaceAllGroupsById(p.inputs);
    NonEmptyKeeps(PlaceAll(p.inputs));
  }

  lemma StartInv()
    ensures Inv(START)
  {
    forall id: nat ensures BitsFor([], id) <= MAX_REPORT_BITS {}
  }
}
