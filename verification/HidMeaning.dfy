/** What a list of descriptor items means, said of the list itself: which items are in force
    where, what each Input item declares, and which lists are refused. The parser computes
    exactly this. */
module HidMeaning {
  import opened Bits
  import opened HidLayout
  import opened HidParser
  import opened LittleEndian
  import opened Nesting
  import opened Objects

  // -------------------------------------------------------------------- items

  predicate IsMain(i: Item) { i.kind == 0 }

  predicate IsInput(i: Item) { i.kind == 0 && i.tag == 8 }

  predicate Begins(i: Item) { i.kind == 0 && i.tag == 10 }

  predicate BeginsApplication(i: Item) { Begins(i) && i.value.raw % 0x100 == 1 }

  predicate Ends(i: Item) { i.kind == 0 && i.tag == 12 }

  predicate IsGlobal(i: Item, tag: nat) { i.kind == 1 && i.tag == tag }

  predicate IsLocal(i: Item, tag: nat) { i.kind == 2 && i.tag == tag }

  /** Push saves the global settings, Pop brings them back. */
  function Saving(items: seq<Item>): (steps: seq<int>)
    ensures |steps| == |items|
    ensures forall k :: 0 <= k < |items| ==>
      steps[k] == if IsGlobal(items[k], 10) then 1 else if IsGlobal(items[k], 11) then -1 else 0
  {
    seq(|items|, k requires 0 <= k < |items| =>
      if IsGlobal(items[k], 10) then 1 else if IsGlobal(items[k], 11) then -1 else 0)
  }

  function Grouping(items: seq<Item>): (steps: seq<int>)
    ensures |steps| == |items|
    ensures forall k :: 0 <= k < |items| ==>
      steps[k] == if Begins(items[k]) then 1 else if Ends(items[k]) then -1 else 0
  {
    seq(|items|, k requires 0 <= k < |items| => if Begins(items[k]) then 1 else if Ends(items[k]) then -1 else 0)
  }

  function Globals(items: seq<Item>, tag: nat): (marks: seq<bool>)
    ensures |marks| == |items| && forall k :: 0 <= k < |items| ==> marks[k] == IsGlobal(items[k], tag)
  {
    seq(|items|, k requires 0 <= k < |items| => IsGlobal(items[k], tag))
  }

  function Applications(items: seq<Item>): (marks: seq<bool>)
    ensures |marks| == |items| && forall k :: 0 <= k < |items| ==> marks[k] == BeginsApplication(items[k])
  {
    seq(|items|, k requires 0 <= k < |items| => BeginsApplication(items[k]))
  }

  // ------------------------------------------------------------------ in force

  /** The global setting at `n`: the last such item not undone by a Pop, or zero. */
  ghost function Given(items: seq<Item>, n: nat, tag: nat): ItemValue
    requires n <= |items|
  {
    var j := Last(Saving(items), Globals(items, tag), n);
    if j.Some? then items[j.value].value else ItemValue(0, 0)
  }

  ghost function PageAt(items: seq<Item>, n: nat): nat
    requires n <= |items|
  {
    Given(items, n, 0).raw % 0x1_0000
  }

  /** Local items are in force from right behind the last Main item. */
  function Scope(items: seq<Item>, n: nat): (s: nat)
    requires n <= |items|
    ensures s <= n && (s > 0 ==> IsMain(items[s - 1])) && forall j :: s <= j < n ==> !IsMain(items[j])
  {
    if n == 0 || IsMain(items[n - 1]) then n else Scope(items, n - 1)
  }

  /** The usage a local item names: four bytes bring their own page. */
  ghost function UsageOf(items: seq<Item>, j: nat): Usage
    requires j < |items|
  {
    var v := items[j].value;
    Usage(if v.size == 4 then v.raw / 0x1_0000 % 0x1_0000 else PageAt(items, j), v.raw % 0x1_0000)
  }

  /** The usages named from `s` to `n`, in order. */
  ghost function Usages(items: seq<Item>, s: nat, n: nat): seq<Usage>
    requires n <= |items|
  {
    if s >= n then []
    else if IsLocal(items[n - 1], 0) then Usages(items, s, n - 1) + [UsageOf(items, n - 1)]
    else Usages(items, s, n - 1)
  }

  /** The last usage named by an item of that tag from `s` to `n`. */
  ghost function LastUsage(items: seq<Item>, s: nat, n: nat, tag: nat): Option<Usage>
    requires n <= |items|
  {
    if s >= n then None
    else if IsLocal(items[n - 1], tag) then Some(UsageOf(items, n - 1))
    else LastUsage(items, s, n - 1, tag)
  }

  function ApplicationsBefore(items: seq<Item>, n: nat): nat
    requires n <= |items|
  {
    if n == 0 then 0 else ApplicationsBefore(items, n - 1) + if BeginsApplication(items[n - 1]) then 1 else 0
  }

  /** The innermost application collection open at `n`, by its number. */
  ghost function Within(items: seq<Item>, n: nat): Option<nat>
    requires n <= |items|
  {
    var j := Last(Grouping(items), Applications(items), n);
    if j.Some? then Some(ApplicationsBefore(items, j.value)) else None
  }

  // ------------------------------------------------------------------- meaning

  function FlagsOf(raw: nat): Flags
  {
    Flags(Bit(raw, 0) == 1, Bit(raw, 1) == 1, Bit(raw, 2) == 1, Bit(raw, 6) == 1)
  }

  /** A logical limit of one, two or four bytes is the number those bytes spell in two's
      complement. */
  lemma SignedIsTwosComplement(v: ItemValue)
    requires v.size in {1, 2, 4} && v.raw < Pow256(v.size)
    ensures 0 <= 2 * Signed(v) + Pow256(v.size) && 2 * Signed(v) < Pow256(v.size)
    ensures Signed(v) == v.raw || Signed(v) == v.raw - Pow256(v.size)
  {
    assert Pow256(2) == 0x1_0000 && Pow256(4) == 0x100 * (0x100 * Pow256(2));
  }

  ghost function MeantField(items: seq<Item>, at: nat): InputField
    requires at < |items|
  {
    var s := Scope(items, at);
    var low, high := Given(items, at, 1), Given(items, at, 2);
    InputField(
      0, Given(items, at, 7).raw, Given(items, at, 9).raw,
      Signed(low), if Signed(low) < 0 then Signed(high) else high.raw,
      FlagsOf(items[at].value.raw),
      Usages(items, s, at), LastUsage(items, s, at, 1), LastUsage(items, s, at, 2),
      PageAt(items, at), Within(items, at))
  }

  /** What the Input item at a position declares. */
  ghost function MeantInput(items: seq<Item>, at: nat): Input
    requires at < |items|
  {
    var size, count := Given(items, at, 7).raw, Given(items, at, 9).raw;
    Input(Given(items, at, 8).raw % 0x100, size * count,
          if items[at].value.raw % 2 == 1 || count == 0 then None else Some(MeantField(items, at)))
  }

  ghost function MeantInputs(items: seq<Item>, n: nat): seq<Input>
    requires n <= |items|
  {
    if n == 0 then []
    else if IsInput(items[n - 1]) then MeantInputs(items, n - 1) + [MeantInput(items, n - 1)]
    else MeantInputs(items, n - 1)
  }

  /** An application collection is known by the first usage before it. */
  ghost function MeantUsage(items: seq<Item>, at: nat): Option<Usage>
    requires at < |items|
  {
    var usages := Usages(items, Scope(items, at), at);
    if usages != [] then Some(usages[0]) else LastUsage(items, Scope(items, at), at, 1)
  }

  /** The usages of the generic desktop page that make a device. */
  predicate IsKind(kind: Kind, usage: Option<Usage>)
  {
    && (kind == Mouse <==> usage == Some(Usage(1, 2))) && (kind == Joystick <==> usage == Some(Usage(1, 4)))
    && (kind == Gamepad <==> usage == Some(Usage(1, 5))) && (kind == Keyboard <==> usage == Some(Usage(1, 6)))
  }

  /** The applications begun before `n`, in order, each with its usage and kind. */
  ghost predicate ApplicationsAre(items: seq<Item>, n: nat, applications: seq<Application>)
    requires n <= |items|
  {
    && |applications| == ApplicationsBefore(items, n)
    && forall j :: 0 <= j < n && BeginsApplication(items[j]) ==> IsApplication(items, j, applications)
  }

  ghost predicate IsApplication(items: seq<Item>, at: nat, applications: seq<Application>)
    requires at < |items|
  {
    var k := ApplicationsBefore(items, at);
    && k < |applications| && applications[k].usage == MeantUsage(items, at)
    && IsKind(applications[k].kind, applications[k].usage)
  }

  ghost predicate HasReportIds(items: seq<Item>, n: nat)
    requires n <= |items|
  {
    exists j :: 0 <= j < n && IsGlobal(items[j], 8)
  }

  // ------------------------------------------------------------------- limits

  ghost function Ids(inputs: seq<Input>): set<nat> { set x | x in inputs :: x.reportId as nat }

  /** The limits leave room for one more input. */
  ghost predicate Room(inputs: seq<Input>, x: Input)
  {
    var all := inputs + [x];
    && |Ids(all)| <= MAX_REPORTS && BitsFor(all, x.reportId) <= MAX_REPORT_BITS
    && (x.field.Some? ==> FieldCount(all) <= MAX_INPUT_FIELDS && ElementCount(all) <= MAX_INPUT_ELEMENTS)
  }

  /** Why the item at a position is refused, if it is. */
  ghost function Refusal(items: seq<Item>, at: nat): Option<DescriptorError>
    requires at < |items|
  {
    var i := items[at];
    if IsInput(i) then
      if !(1 <= Given(items, at, 7).raw <= 32) then Some(InvalidReportSize)
      else if !Room(MeantInputs(items, at), MeantInput(items, at)) then Some(LayoutLimitExceeded)
      else None
    else if Begins(i) then
      if Depth(Grouping(items), at) >= MAX_COLLECTION_DEPTH then Some(CollectionDepthExceeded)
      else if BeginsApplication(i) && ApplicationsBefore(items, at) >= MAX_APPLICATIONS then Some(LayoutLimitExceeded)
      else None
    else if Ends(i) && Depth(Grouping(items), at) <= 0 then Some(CollectionStackUnderflow)
    else if IsGlobal(i, 8) && !(1 <= i.value.raw <= 255) then Some(InvalidReportId)
    else if IsGlobal(i, 10) && Depth(Saving(items), at) >= MAX_GLOBAL_STACK_DEPTH then Some(GlobalStackOverflow)
    else if IsGlobal(i, 11) && Depth(Saving(items), at) <= 0 then Some(GlobalStackUnderflow)
    else None
  }
}
