/** The descriptor parser object: it keeps the report layouts up to date as it goes. */
module HidDescriptor {
  import opened HidExact
  import opened HidLayout
  import opened HidParser
  import opened LittleEndian
  import opened Objects
  import opened Totals

  method FindReport(reports: seq<ReportLayout>, id: nat) returns (r: Option<nat>)
    ensures r == IndexOf(reports, id)
  {
    for i := 0 to |reports|
      invariant forall k :: 0 <= k < i ==> reports[k].reportId != id
    {
      if reports[i].reportId == id {
        return Some(i);
      }
    }
    return None;
  }

  method TotalFields(reports: seq<ReportLayout>) returns (total: nat)
    ensures total == Total(reports, Fields())
  {
    total := 0;
    for i := 0 to |reports|
      invariant total == Total(reports[..i], Fields())
    {
      TotalAppend(reports[..i], reports[i], Fields());
      assert reports[..i + 1] == reports[..i] + [reports[i]];
      total := total + |reports[i].fields|;
    }
    assert reports[..|reports|] == reports;
  }

  /** Keeps the reports that carry bits. */
  method Retain(reports: seq<ReportLayout>) returns (kept: seq<ReportLayout>)
    ensures kept == NonEmpty(reports)
  {
    kept := [];
    var i: nat := 0;
    while i < |reports|
      invariant i <= |reports| && kept + NonEmpty(reports[i..]) == NonEmpty(reports)
    {
      assert reports[i..][1..] == reports[i + 1..];
      if reports[i].inputBits != 0 { kept := kept + [reports[i]]; }
      i := i + 1;
    }
  }

  class DescriptorParser {
    const descriptor: seq<u8>
    var cursor: nat
    var global: Global
    var globalStack: seq<Global>
    var local: Local
    var collections: seq<Option<nat>>
    var applications: seq<Application>
    var reports: seq<ReportLayout>
    var inputElements: nat
    var usesReportIds: bool
    ghost var inputs: seq<Input>

    ghost predicate Valid()
      reads this
    {
      reports == PlaceAll(inputs) && inputElements == ElementCount(inputs)
    }

    ghost function View(): Progress
      reads this
    {
      Progress(global, globalStack, local, collections, applications, inputs, usesReportIds)
    }

    constructor (descriptor: seq<u8>)
      ensures Valid() && View() == START && this.descriptor == descriptor && cursor == 0
    {
      this.descriptor := descriptor;
      cursor := 0;
      global, globalStack, local := NO_GLOBALS, [], NO_LOCALS;
      collections, applications, reports, inputElements, usesReportIds := [], [], [], 0, false;
      inputs := [];
    }

    method TakeBytes(count: nat) returns (r: Option<seq<u8>>)
      modifies this`cursor
      ensures r.Some? <==> old(cursor) + count <= |descriptor|
      ensures r.Some? ==> cursor == old(cursor) + count && r.value == descriptor[old(cursor)..cursor]
    {
      if cursor + count > |descriptor| { return None; }
      cursor := cursor + count;
      return Some(descriptor[cursor - count..cursor]);
    }

    /** The reasons to refuse an Input item, from the layouts built so far. */
    method CheckInput(flags: Flags) returns (error: Option<DescriptorError>)
      requires Valid()
      ensures error == InputError(View(), flags)
    {
      PlaceAllGroupsById(inputs);
      PlaceAllCounts(inputs);
      if global.reportSize == 0 || global.reportSize > 32 { return Some(InvalidReportSize); }
      var at := FindReport(reports, global.reportId);
      if at.None? && |reports| == MAX_REPORTS { return Some(LayoutLimitExceeded); }
      var bitOffset := BitsSoFar(at);
      if bitOffset + global.reportSize * global.reportCount > MAX_REPORT_BITS { return Some(LayoutLimitExceeded); }
      if flags.constant || global.reportCount == 0 { return None; }
      var total := TotalFields(reports);
      if total == MAX_INPUT_FIELDS || inputElements + global.reportCount > MAX_INPUT_ELEMENTS {
        return Some(LayoutLimitExceeded);
      }
      return None;
    }

    method BitsSoFar(at: Option<nat>) returns (bits: nat)
      requires Valid() && Groups(reports, inputs) && at == IndexOf(reports, global.reportId)
      ensures bits == BitsFor(inputs, global.reportId)
    {
      if at.None? {
        UndeclaredIsEmpty(inputs, global.reportId);
        return 0;
      }
      assert IsReportOf(reports[at.value], inputs);
      return reports[at.value].inputBits;
    }

    method InputItem(flags: Flags) returns (r: Result<(), DescriptorError>)
      requires Valid()
      modifies this
      ensures cursor == old(cursor)
      ensures r.Ok? ==> Valid() && AfterInput(old(View()), flags) == Ok(View())
      ensures r.Err? ==> AfterInput(old(View()), flags) == Err(r.error)
    {
      var error := CheckInput(flags);
      if error.Some? { return Err(error.value); }
      AddInput(flags);
      return Ok(());
    }

    /** One report with the item behind what it already holds. */
    method ExtendReport(report: ReportLayout, flags: Flags) returns (extended: ReportLayout)
      ensures extended == Extended(report, Declared(View(), flags))
    {
      var fields := report.fields;
      if !flags.constant && global.reportCount != 0 {
        var logicalMin := Signed(global.logicalMin);
        var logicalMax := if logicalMin < 0 then Signed(global.logicalMax) else global.logicalMax.raw;
        var application := if collections == [] then None else collections[|collections| - 1];
        fields := fields + [InputField(report.inputBits, global.reportSize, global.reportCount, logicalMin, logicalMax,
                                       flags, local.usages, local.usageMin, local.usageMax,
                                       global.usagePage, application)];
      }
      return ReportLayout(report.reportId, report.inputBits + global.reportSize * global.reportCount, fields);
    }

    method AddInput(flags: Flags)
      requires Valid()
      modifies this`reports, this`inputElements, this`inputs
      ensures Valid() && inputs == old(inputs) + [Declared(old(View()), flags)]
    {
      ghost var x := Declared(View(), flags);
      PlaceReport(flags);
      if !flags.constant && global.reportCount != 0 { inputElements := inputElements + global.reportCount; }
      inputs := inputs + [x];
      assert inputs[..|inputs| - 1] == old(inputs);
    }

    /** Finds the report of the item, or starts it, and appends the item to it. */
    method PlaceReport(flags: Flags)
      modifies this`reports
      ensures reports == Place(old(reports), Declared(old(View()), flags))
    {
      var at := FindReport(reports, global.reportId);
      var index := if at.Some? then at.value else |reports|;
      if at.None? { reports := reports + [ReportLayout(global.reportId, 0, [])]; }
      var extended := ExtendReport(reports[index], flags);
      reports := reports[index := extended];
    }

    method BeginCollection(kind: nat) returns (r: Result<(), DescriptorError>)
      requires Valid()
      modifies this`collections, this`applications
      ensures r.Ok? ==> AfterBegin(old(View()), kind) == Ok(View())
      ensures r.Err? ==> AfterBegin(old(View()), kind) == Err(r.error)
    {
      if |collections| == MAX_COLLECTION_DEPTH { return Err(CollectionDepthExceeded); }
      var application := if collections == [] then None else collections[|collections| - 1];
      if kind == 1 {
        if |applications| == MAX_APPLICATIONS { return Err(LayoutLimitExceeded); }
        application := Some(|applications|);
        var usage := FirstUsage(local);
        applications := applications + [Application(usage, Classify(usage))];
      }
      collections := collections + [application];
      return Ok(());
    }

    method EndCollection() returns (r: Result<(), DescriptorError>)
      requires Valid()
      modifies this`collections
      ensures r.Ok? ==> AfterEnd(old(View())) == Ok(View())
      ensures r.Err? ==> AfterEnd(old(View())) == Err(r.error)
    {
      if collections == [] { return Err(CollectionStackUnderflow); }
      collections := collections[..|collections| - 1];
      return Ok(());
    }

    method MainItem(tag: nat, value: ItemValue) returns (r: Result<(), DescriptorError>)
      requires Valid()
      modifies this
      ensures cursor == old(cursor)
      ensures r.Ok? ==> Valid() && AfterMain(old(View()), tag, value) == Ok(View())
      ensures r.Err? ==> AfterMain(old(View()), tag, value) == Err(r.error)
      ensures r.Ok? ==> local.usages == [] && local.usageMin.None? && local.usageMax.None?
    {
      r := Ok(());
      if tag == 8 {
        r := InputItem(DecodeFlags(Word(value.raw)));
      } else if tag == 10 {
        r := BeginCollection(value.raw % 0x100);
      } else if tag == 12 {
        r := EndCollection();
      }
      if r.Ok? { local := NO_LOCALS; }
    }

    method GlobalItem(tag: nat, value: ItemValue) returns (r: Result<(), DescriptorError>)
      requires Valid()
      modifies this`global, this`globalStack, this`usesReportIds
      ensures r.Ok? ==> AfterGlobal(old(View()), tag, value) == Ok(View())
      ensures r.Err? ==> AfterGlobal(old(View()), tag, value) == Err(r.error)
    {
      r := Ok(());
      match tag
      case 0 => global := global.(usagePage := Word(value.raw));
      case 1 => global := global.(logicalMin := value);
      case 2 => global := global.(logicalMax := value);
      case 7 => global := global.(reportSize := value.raw);
      case 8 =>
        if value.raw == 0 || value.raw > 0xFF { return Err(InvalidReportId); }
        global := global.(reportId := value.raw);
        usesReportIds := true;
      case 9 => global := global.(reportCount := value.raw);
      case 10 =>
        if |globalStack| == MAX_GLOBAL_STACK_DEPTH { return Err(GlobalStackOverflow); }
        globalStack := globalStack + [global];
      case 11 =>
        if globalStack == [] { return Err(GlobalStackUnderflow); }
        global := globalStack[|globalStack| - 1];
        globalStack := globalStack[..|globalStack| - 1];
      case _ => {}
    }

    method LocalItem(tag: nat, value: ItemValue)
      requires Valid()
      modifies this`local
      ensures View() == AfterLocal(old(View()), tag, value)
    {
      var usage := DecodeUsage(value, global.usagePage);
      match tag
      case 0 => local := local.(usages := local.usages + [usage]);
      case 1 => local := local.(usageMin := Some(usage));
      case 2 => local := local.(usageMax := Some(usage));
      case _ => {}
    }

    /** Reads one item off the descriptor. */
    method TakeItem() returns (r: Result<Option<Item>, DescriptorError>)
      requires cursor < |descriptor|
      modifies this`cursor
      ensures r.Ok? ==> NextItem(descriptor, old(cursor)) == Ok((r.value, cursor))
      ensures r.Err? ==> NextItem(descriptor, old(cursor)) == Err(r.error)
    {
      var prefix := descriptor[cursor];
      cursor := cursor + 1;
      if prefix == 0xFE {
        var length := TakeBytes(1);
        if length.None? { return Err(TruncatedItem); }
        var longTag := TakeBytes(1);
        if longTag.None? { return Err(TruncatedItem); }
        var skipped := TakeBytes(length.value[0]);
        return if skipped.None? then Err(TruncatedItem) else Ok(None);
      }
      var size := if prefix % 4 == 3 then 4 else prefix % 4;
      var data := TakeBytes(size);
      if data.None? { return Err(TruncatedItem); }
      return Ok(Some(Item((prefix / 4) % 4, prefix / 16, ItemValue(FromBytes(data.value), size))));
    }

    method ApplyItem(item: Item) returns (r: Result<(), DescriptorError>)
      requires Valid()
      modifies this
      ensures cursor == old(cursor)
      ensures r.Ok? ==> Valid() && AfterItem(old(View()), item) == Ok(View())
      ensures r.Err? ==> AfterItem(old(View()), item) == Err(r.error)
    {
      r := Ok(());
      if item.kind == 0 {
        r := MainItem(item.tag, item.value);
      } else if item.kind == 1 {
        r := GlobalItem(item.tag, item.value);
      } else if item.kind == 2 {
        LocalItem(item.tag, item.value);
      }
    }

    /** Parses the whole descriptor. */
    method Parse() returns (r: Result<DeviceLayout, DescriptorError>)
      requires Valid() && View() == START && cursor == 0
      modifies this
      ensures r == HidParser.Parse(descriptor) && Means(descriptor, r)
      ensures r.Ok? ==> Sound(r.value)
    {
      ParseIsExact(descriptor);
      if HidParser.Parse(descriptor).Ok? { ParseIsSound(descriptor); }
      while cursor < |descriptor|
        invariant Valid() && Interpret(View(), descriptor, cursor) == Interpret(START, descriptor, 0)
      {
        var item := TakeItem();
        if item.Err? { return Err(item.error); }
        if item.value.Some? {
          var applied := ApplyItem(item.value.value);
          if applied.Err? { return Err(applied.error); }
        }
      }
      if collections != [] { return Err(UnclosedCollection); }
      var unnumbered := exists i :: 0 <= i < |reports| && reports[i].reportId == 0 && reports[i].inputBits != 0;
      if usesReportIds && unnumbered { return Err(MixedReportIds); }
      reports := Retain(reports);
      return Ok(DeviceLayout(applications, reports, usesReportIds));
    }
  }
}
