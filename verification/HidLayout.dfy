/** The report layouts a HID report descriptor declares (section 6.2.2 of the USB Device
    Class Definition for HID 1.11). */
module HidLayout {
  import opened Objects
  import opened Totals

  const MAX_APPLICATIONS: nat := 32
  const MAX_REPORTS: nat := 255
  const MAX_INPUT_FIELDS: nat := 256
  const MAX_INPUT_ELEMENTS: nat := 1024
  const MAX_REPORT_BITS: nat := 16 * 1024
  const MAX_COLLECTION_DEPTH: nat := 32
  const MAX_GLOBAL_STACK_DEPTH: nat := 16

  datatype Usage = Usage(page: nat, id: nat)

  datatype Kind = Keyboard | Mouse | Joystick | Gamepad | OtherKind

  datatype Application = Application(usage: Option<Usage>, kind: Kind)

  datatype Flags = Flags(constant: bool, variable: bool, relative: bool, nullState: bool)

  datatype InputField = InputField(
    bitOffset: nat,
    bitSize: nat,
    count: nat,
    logicalMin: int,
    logicalMax: int,
    flags: Flags,
    usages: seq<Usage>,
    usageMin: Option<Usage>,
    usageMax: Option<Usage>,
    defaultUsagePage: nat,
    application: Option<nat>)

  datatype ReportLayout = ReportLayout(reportId: u8, inputBits: nat, fields: seq<InputField>)

  datatype DeviceLayout = DeviceLayout(applications: seq<Application>, reports: seq<ReportLayout>, usesReportIds: bool)

  datatype DescriptorError =
    | TruncatedItem | InvalidReportId | MixedReportIds | GlobalStackUnderflow | GlobalStackOverflow
    | CollectionStackUnderflow | UnclosedCollection | CollectionDepthExceeded | LayoutLimitExceeded
    | InvalidReportSize

  function FieldBits(f: InputField): nat { f.bitSize * f.count }

  // ------------------------------------------------------- placing the inputs

  /** One Input item: so many bits of a report, holding a field unless they are padding. */
  datatype Input = Input(reportId: u8, bits: nat, field: Option<InputField>)

  function IndexOf(reports: seq<ReportLayout>, id: nat): (r: Option<nat>)
    ensures r.Some? ==> r.value < |reports| && reports[r.value].reportId == id
    ensures forall k :: 0 <= k < (if r.Some? then r.value else |reports|) ==> reports[k].reportId != id
  {
    if reports == [] then None
    else if reports[0].reportId == id then Some(0)
    else
      var rest := IndexOf(reports[1..], id);
      if rest.Some? then Some(rest.value + 1) else None
  }

  function Extended(r: ReportLayout, x: Input): ReportLayout
  {
    ReportLayout(r.reportId, r.inputBits + x.bits,
                 if x.field.Some? then r.fields + [x.field.value.(bitOffset := r.inputBits)] else r.fields)
  }

  /** Adds an input behind what its report already holds; a new report goes last. */
  function Place(reports: seq<ReportLayout>, x: Input): seq<ReportLayout>
  {
    var at := IndexOf(reports, x.reportId);
    if at.Some? then reports[at.value := Extended(reports[at.value], x)]
    else reports + [Extended(ReportLayout(x.reportId, 0, []), x)]
  }

  function PlaceAll(inputs: seq<Input>): seq<ReportLayout>
  {
    if inputs == [] then [] else Place(PlaceAll(inputs[..|inputs| - 1]), inputs[|inputs| - 1])
  }

  // ------------------------------------------ what each report should contain

  /** The bits declared for report `id`. */
  function BitsFor(inputs: seq<Input>, id: nat): nat
  {
    if inputs == [] then 0
    else
      var last := inputs[|inputs| - 1];
      BitsFor(inputs[..|inputs| - 1], id) + if last.reportId == id then last.bits else 0
  }

  /** The fields of report `id`, each right behind everything declared before it. */
  function FieldsFor(inputs: seq<Input>, id: nat): seq<InputField>
  {
    if inputs == [] then []
    else
      var before, last := inputs[..|inputs| - 1], inputs[|inputs| - 1];
      if last.reportId == id && last.field.Some?
      then FieldsFor(before, id) + [last.field.value.(bitOffset := BitsFor(before, id))]
      else FieldsFor(before, id)
  }

  ghost predicate Declares(inputs: seq<Input>, id: nat)
  {
    exists k :: 0 <= k < |inputs| && inputs[k].reportId == id
  }

  ghost predicate Distinct(reports: seq<ReportLayout>)
  {
    forall i, j :: 0 <= i < j < |reports| ==> reports[i].reportId != reports[j].reportId
  }

  predicate IsReportOf(r: ReportLayout, inputs: seq<Input>)
  {
    r.inputBits == BitsFor(inputs, r.reportId) && r.fields == FieldsFor(inputs, r.reportId)
  }

  lemma {:induction false} UndeclaredIsEmpty(inputs: seq<Input>, id: nat)
    requires !Declares(inputs, id)
    ensures BitsFor(inputs, id) == 0 && FieldsFor(inputs, id) == []
  {
    if inputs != [] {
      var n := |inputs| - 1;
      assert inputs[n].reportId != id;
      forall k | 0 <= k < n ensures inputs[..n][k].reportId != id { assert inputs[k].reportId != id; }
      UndeclaredIsEmpty(inputs[..n], id);
    }
  }

  /** One report for each declared id, holding exactly that id's inputs in order. */
  ghost predicate Groups(reports: seq<ReportLayout>, inputs: seq<Input>)
  {
    && Distinct(reports)
    && (forall i :: 0 <= i < |reports| ==> IsReportOf(reports[i], inputs))
    && (forall id :: Declares(inputs, id) ==> IndexOf(reports, id).Some?)
  }

  lemma OneMoreInput(inputs: seq<Input>, x: Input, id: nat)
    ensures BitsFor(inputs + [x], id) == BitsFor(inputs, id) + if x.reportId == id then x.bits else 0
    ensures FieldsFor(inputs + [x], id) ==
      if x.reportId == id && x.field.Some? then
        FieldsFor(inputs, id) + [x.field.value.(bitOffset := BitsFor(inputs, id))]
      else FieldsFor(inputs, id)
    ensures Declares(inputs + [x], id) <==> Declares(inputs, id) || x.reportId == id
  {
    var all := inputs + [x];
    assert all[..|all| - 1] == inputs && all[|inputs|] == x;
    if Declares(inputs, id) {
      var k :| 0 <= k < |inputs| && inputs[k].reportId == id;
      assert all[k].reportId == id;
    }
  }

  /** An input changes only the report it names. */
  lemma ReportAfterInput(r: ReportLayout, inputs: seq<Input>, x: Input)
    requires IsReportOf(r, inputs)
    ensures IsReportOf(if r.reportId == x.reportId then Extended(r, x) else r, inputs + [x])
  {
    OneMoreInput(inputs, x, r.reportId);
  }

  lemma PlaceKeepsReports(reports: seq<ReportLayout>, inputs: seq<Input>, x: Input, i: nat)
    requires Groups(reports, inputs) && i < |Place(reports, x)|
    ensures IsReportOf(Place(reports, x)[i], inputs + [x])
  {
    if i < |reports| {
      ReportAfterInput(reports[i], inputs, x);
    } else {
      UndeclaredIsEmpty(inputs, x.reportId);
      ReportAfterInput(ReportLayout(x.reportId, 0, []), inputs, x);
    }
  }

  lemma PlaceKeepsGroups(reports: seq<ReportLayout>, inputs: seq<Input>, x: Input)
    requires Groups(reports, inputs)
    ensures Groups(Place(reports, x), inputs + [x])
  {
    var after := Place(reports, x);
    forall i | 0 <= i < |after| ensures IsReportOf(after[i], inputs + [x]) { PlaceKeepsReports(reports, inputs, x, i); }
    forall id | Declares(inputs + [x], id) ensures IndexOf(after, id).Some? {
      OneMoreInput(inputs, x, id);
      var was := IndexOf(reports, id);
      assert after[if was.Some? then was.value else |reports|].reportId == id;
    }
  }

  /** Finding or adding a report per item gives just those groups. */
  lemma {:induction false} PlaceAllGroupsById(inputs: seq<Input>)
    ensures Groups(PlaceAll(inputs), inputs)
  {
    if inputs != [] {
      var n := |inputs| - 1;
      PlaceAllGroupsById(inputs[..n]);
      PlaceLastKeepsGroups(PlaceAll(inputs[..n]), inputs);
    }
  }

  lemma PlaceLastKeepsGroups(reports: seq<ReportLayout>, inputs: seq<Input>)
    requires inputs != [] && Groups(reports, inputs[..|inputs| - 1])
    ensures Groups(Place(reports, inputs[|inputs| - 1]), inputs)
  {
    var n := |inputs| - 1;
    PlaceKeepsGroups(reports, inputs[..n], inputs[n]);
    assert inputs == inputs[..n] + [inputs[n]];
  }

  // ---------------------------------------------------------------- soundness

  function FieldCount(inputs: seq<Input>): nat
  {
    if inputs == [] then 0
    else FieldCount(inputs[..|inputs| - 1]) + if inputs[|inputs| - 1].field.Some? then 1 else 0
  }

  function ElementCount(inputs: seq<Input>): nat
  {
    if inputs == [] then 0
    else
      var field := inputs[|inputs| - 1].field;
      ElementCount(inputs[..|inputs| - 1]) + if field.Some? then field.value.count else 0
  }

  ghost function Fields(): ReportLayout -> nat
  {
    (r: ReportLayout) => |r.fields|
  }

  function CountSum(fields: seq<InputField>): nat
  {
    if fields == [] then 0 else fields[0].count + CountSum(fields[1..])
  }

  ghost function Elements(): ReportLayout -> nat
  {
    (r: ReportLayout) => CountSum(r.fields)
  }

  lemma {:induction false} CountSumAppend(fields: seq<InputField>, f: InputField)
    ensures CountSum(fields + [f]) == CountSum(fields) + f.count
  {
    if fields == [] {
      assert [f][1..] == [];
    } else {
      assert (fields + [f])[1..] == fields[1..] + [f];
      CountSumAppend(fields[1..], f);
    }
  }

  lemma PlaceCounts(reports: seq<ReportLayout>, x: Input)
    ensures Total(Place(reports, x), Fields()) == Total(reports, Fields()) + if x.field.Some? then 1 else 0
    ensures Total(Place(reports, x), Elements()) ==
      Total(reports, Elements()) + if x.field.Some? then x.field.value.count else 0
  {
    var at := IndexOf(reports, x.reportId);
    var r := if at.Some? then reports[at.value] else ReportLayout(x.reportId, 0, []);
    if x.field.Some? { CountSumAppend(r.fields, x.field.value.(bitOffset := r.inputBits)); }
    if at.Some? {
      TotalUpdate(reports, at.value, Extended(r, x), Fields());
      TotalUpdate(reports, at.value, Extended(r, x), Elements());
    } else {
      TotalAppend(reports, Extended(r, x), Fields());
      TotalAppend(reports, Extended(r, x), Elements());
    }
  }

  /** The reports hold every declared field and element, once. */
  lemma {:induction false} PlaceAllCounts(inputs: seq<Input>)
    ensures Total(PlaceAll(inputs), Fields()) == FieldCount(inputs)
    ensures Total(PlaceAll(inputs), Elements()) == ElementCount(inputs)
  {
    if inputs != [] {
      var n := |inputs| - 1;
      PlaceAllCounts(inputs[..n]);
      PlaceCounts(PlaceAll(inputs[..n]), inputs[n]);
    }
  }

  predicate FieldOk(f: InputField, applications: nat)
  {
    && 1 <= f.bitSize <= 32 && 1 <= f.count && !f.flags.constant
    && (f.application.Some? ==> f.application.value < applications)
  }

  predicate InputOk(x: Input, applications: nat)
  {
    x.field.Some? ==> FieldOk(x.field.value, applications) && x.bits == FieldBits(x.field.value)
  }

  /** Fields in ascending order, disjoint, and inside the report. */
  predicate Ordered(fields: seq<InputField>, bits: nat)
  {
    && (forall k :: 0 <= k < |fields| - 1 ==> fields[k].bitOffset + FieldBits(fields[k]) <= fields[k + 1].bitOffset)
    && (fields != [] ==> fields[|fields| - 1].bitOffset + FieldBits(fields[|fields| - 1]) <= bits)
  }

  lemma {:induction false} FieldsForIsOrdered(inputs: seq<Input>, id: nat, applications: nat)
    requires forall k :: 0 <= k < |inputs| ==> InputOk(inputs[k], applications)
    ensures Ordered(FieldsFor(inputs, id), BitsFor(inputs, id))
    ensures forall k :: 0 <= k < |FieldsFor(inputs, id)| ==> FieldOk(FieldsFor(inputs, id)[k], applications)
  {
    if inputs != [] {
      var n := |inputs| - 1;
      FieldsForIsOrdered(inputs[..n], id, applications);
      assert InputOk(inputs[n], applications);
      if inputs[n].reportId == id && inputs[n].field.Some? {
        var bits := BitsFor(inputs[..n], id);
        AppendKeepsOrdered(FieldsFor(inputs[..n], id), bits, inputs[n].field.value.(bitOffset := bits));
      }
    }
  }

  lemma AppendKeepsOrdered(fields: seq<InputField>, bits: nat, f: InputField)
    requires Ordered(fields, bits) && f.bitOffset == bits
    ensures Ordered(fields + [f], bits + FieldBits(f))
  {
  }

  /** Reports that carry at least one bit, in order. */
  function NonEmpty(reports: seq<ReportLayout>): seq<ReportLayout>
  {
    if reports == [] then []
    else if reports[0].inputBits != 0 then [reports[0]] + NonEmpty(reports[1..])
    else NonEmpty(reports[1..])
  }

  lemma {:induction false} NonEmptyKeeps(reports: seq<ReportLayout>)
    ensures |NonEmpty(reports)| <= |reports|
    ensures forall r :: r in NonEmpty(reports) <==> r in reports && r.inputBits != 0
  {
    if reports != [] { NonEmptyKeeps(reports[1..]); }
  }

  lemma {:induction false} NonEmptyTotal(reports: seq<ReportLayout>, f: ReportLayout -> nat)
    ensures Total(NonEmpty(reports), f) <= Total(reports, f)
  {
    if reports != [] {
      NonEmptyTotal(reports[1..], f);
      if reports[0].inputBits != 0 { assert NonEmpty(reports)[1..] == NonEmpty(reports[1..]); }
    }
  }

  lemma {:induction false} NonEmptyKeepsDistinct(reports: seq<ReportLayout>)
    requires Distinct(reports)
    ensures Distinct(NonEmpty(reports))
  {
    if reports != [] {
      NonEmptyKeepsDistinct(reports[1..]);
      NonEmptyKeeps(reports[1..]);
      forall r | r in NonEmpty(reports[1..]) ensures r.reportId != reports[0].reportId { assert r in reports[1..]; }
    }
  }

  ghost predicate ReportSound(r: ReportLayout, layout: DeviceLayout)
  {
    && 0 < r.inputBits <= MAX_REPORT_BITS
    && (r.reportId != 0 <==> layout.usesReportIds)
    && Ordered(r.fields, r.inputBits)
    && forall k :: 0 <= k < |r.fields| ==> FieldOk(r.fields[k], |layout.applications|)
  }

  /** Unique report ids, all zero or all non-zero; ordered disjoint fields inside their
      reports; valid application indices; and every limit respected. */
  ghost predicate Sound(layout: DeviceLayout)
  {
    && |layout.applications| <= MAX_APPLICATIONS
    && |layout.reports| <= MAX_REPORTS
    && Total(layout.reports, Fields()) <= MAX_INPUT_FIELDS
    && Total(layout.reports, Elements()) <= MAX_INPUT_ELEMENTS
    && Distinct(layout.reports)
    && forall i :: 0 <= i < |layout.reports| ==> ReportSound(layout.reports[i], layout)
  }
}
