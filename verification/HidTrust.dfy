/** A test on a field's description that decides which keys its events can be trusted about. */
module HidTrust {
  import opened Bits
  import opened HidDecode
  import opened HidLayout
  import opened HidReplay
  import opened Objects

  const WORD: nat := 0x1_0000

  /** Inside the field's usage range, if it has one. */
  predicate Admitted(f: InputField, u: Usage)
  {
    f.usageMin.Some? && f.usageMax.Some? ==>
      u.page == f.usageMin.value.page == f.usageMax.value.page && f.usageMin.value.id <= u.id <= f.usageMax.value.id
  }

  /** The first value too large for the field. */
  function Top(f: InputField): nat
  {
    if f.logicalMin >= 0 then Pow2(f.bitSize) else Pow2(if f.bitSize == 0 then 0 else f.bitSize - 1)
  }

  /** The selector that names its page too. */
  function Long(page: nat, id: nat): nat { page * WORD + id }

  predicate KeyboardKey(f: InputField, u: Usage) { f.defaultUsagePage == KEYBOARD_PAGE && u.page == KEYBOARD_PAGE }

  /** Some value makes `u` active. */
  predicate CanHold(f: InputField, u: Usage)
  {
    && Admitted(f, u)
    && ((f.defaultUsagePage == u.page && 0 < u.id < Top(f)) || (u.page >= 1 && Long(u.page, u.id) < Top(f)))
  }

  /** A selector of this page can be read, as a positive or a negative value. */
  predicate Readable(f: InputField, page: nat, id: nat)
  {
    1 <= page < WORD &&
    (Long(page, id) < Top(f) || (f.logicalMin < 0 && Long(page, id) + Top(f) >= SPAN_32))
  }

  /** Some value of another page is announced as the key. Without a usage range the
      smallest and the largest page tell. */
  predicate Misheard(f: InputField, u: Usage)
  {
    if f.usageMin.Some? && f.usageMax.Some? then
      var page := f.usageMin.value.page;
      page != KEYBOARD_PAGE && Admitted(f, Usage(page, u.id)) && Readable(f, page, u.id)
    else Readable(f, 1, u.id) || Readable(f, WORD - 1, u.id)
  }

  /** The key can be selected with its page and without, in two places at once. */
  predicate Twice(f: InputField, u: Usage)
  {
    f.count >= 2 && Admitted(f, u) && u.id != 0 && !IsErrorUsage(u.id) && Long(KEYBOARD_PAGE, u.id) < Top(f)
  }

  predicate Clear(f: InputField, u: Usage)
  {
    if KeyboardKey(f, u) then !Misheard(f, u) && !Twice(f, u) else !CanHold(f, u)
  }

  /** Decided from the description alone. */
  predicate Trustworthy(f: InputField, u: Usage)
  {
    if !f.flags.variable then Clear(f, u)
    else if f.flags.relative then forall i :: 0 <= i < f.count ==> !StandsFor(f, i, u)
    else AtMostOne(f, u)
  }

  // ------------------------------------------------------------------ readings

  lemma PossibleRange(f: InputField, v: int)
    requires Sized(f)
    ensures Top(f) <= SPAN_32 && (f.logicalMin < 0 ==> 2 * Top(f) == Pow2(f.bitSize) && Top(f) <= 0x8000_0000)
    ensures Possible(f, v) <==> (if f.logicalMin >= 0 then 0 else 0 - Top(f)) <= v < Top(f)
  {
    Pow32();
    PowGrows(f.bitSize, 32);
    PowGrows(f.bitSize - 1, 31);
    assert Pow2(f.bitSize) == 2 * Pow2(f.bitSize - 1);
  }

  lemma ShortUsage(f: InputField, v: int)
    requires 0 <= v < WORD
    ensures ArrayUsage(f, AsU32(v)) ==
      if Admitted(f, Usage(f.defaultUsagePage, v)) then Some(Usage(f.defaultUsagePage, v)) else None
  {
  }

  lemma LongUsage(f: InputField, page: nat, id: nat, v: int)
    requires 1 <= page < WORD && id < WORD && (v == Long(page, id) || v == Long(page, id) - SPAN_32)
    ensures ArrayUsage(f, AsU32(v)) == if Admitted(f, Usage(page, id)) then Some(Usage(page, id)) else None
  {
    assert AsU32(v) == Long(page, id);
    DivUnique(Long(page, id), WORD, page, id);
  }

  /** Every value is read as a short selector or as a long one. */
  lemma ValueShape(f: InputField, v: int) returns (page: nat, id: nat)
    requires Sized(f) && Possible(f, v)
    ensures id < WORD
    ensures page == 0 ==> v == id
    ensures page > 0 ==>
      page < WORD && Readable(f, page, id) && (v == Long(page, id) < Top(f) || v == Long(page, id) - SPAN_32 < 0)
  {
    PossibleRange(f, v);
    var raw := if v >= 0 then v else v + SPAN_32;
    page, id := raw / WORD, raw % WORD;
  }

  lemma ReadableValue(f: InputField, page: nat, id: nat) returns (v: int)
    requires Sized(f) && Readable(f, page, id) && id < WORD
    ensures Possible(f, v) && v != 0 && !IsErrorUsage(v) && (v == Long(page, id) || v == Long(page, id) - SPAN_32 < 0)
  {
    v := if Long(page, id) < Top(f) then Long(page, id) else Long(page, id) - SPAN_32;
    PossibleRange(f, v);
  }

  // ------------------------------------------------------------------- keyboard

  lemma MisheardIsMisheard(f: InputField, u: Usage)
    requires Sized(f) && KeyboardKey(f, u) && u.id < WORD && Misheard(f, u)
    ensures !Unambiguous(f, u)
  {
    var ranged := f.usageMin.Some? && f.usageMax.Some?;
    var page := if ranged then f.usageMin.value.page else if Readable(f, 1, u.id) then 1 else WORD - 1;
    var v := ReadableValue(f, page, u.id);
    LongUsage(f, page, u.id, v);
    assert Takes(f, v) && Heard(f, v, u) && !Holds(f, v, u);
  }

  lemma TwiceIsAmbiguous(f: InputField, u: Usage)
    requires Sized(f) && KeyboardKey(f, u) && u.id < WORD && Twice(f, u)
    ensures !Unambiguous(f, u)
  {
    var v, w := u.id, Long(KEYBOARD_PAGE, u.id);
    PossibleRange(f, v);
    PossibleRange(f, w);
    ShortUsage(f, v);
    LongUsage(f, KEYBOARD_PAGE, u.id, w);
    assert Takes(f, v) && Takes(f, w) && Heard(f, v, u) && Heard(f, w, u) && v != w;
  }

  lemma LargestPage(f: InputField, page: nat, id: nat)
    requires 1 <= page < WORD && Readable(f, page, id)
    ensures Readable(f, 1, id) || Readable(f, WORD - 1, id)
  {
  }

  /** A heard value holds the key, in one of two ways. */
  lemma HeardHolds(f: InputField, u: Usage, v: int)
    requires Sized(f) && KeyboardKey(f, u) && u.id < WORD && !Misheard(f, u) && Takes(f, v) && Heard(f, v, u)
    ensures Holds(f, v, u) && Admitted(f, u) && (v == u.id || v == Long(KEYBOARD_PAGE, u.id) < Top(f))
  {
    var page, id := ValueShape(f, v);
    if page == 0 {
      ShortUsage(f, v);
    } else {
      PossibleRange(f, v);
      LongUsage(f, page, id, v);
      LargestPage(f, page, id);
    }
  }

  lemma HoldsHeard(f: InputField, u: Usage, v: int)
    requires KeyboardKey(f, u) && Holds(f, v, u)
    ensures Heard(f, v, u)
  {
  }

  lemma ClearKeyboardIsUnambiguous(f: InputField, u: Usage)
    requires Sized(f) && KeyboardKey(f, u) && u.id < WORD && Clear(f, u)
    ensures Unambiguous(f, u)
  {
    forall v | Takes(f, v) ensures Heard(f, v, u) == Holds(f, v, u) {
      if Heard(f, v, u) { HeardHolds(f, u, v); }
      if Holds(f, v, u) { HoldsHeard(f, u, v); }
    }
    forall v, w | f.count >= 2 && Takes(f, v) && Takes(f, w) && Heard(f, v, u) && Heard(f, w, u) ensures v == w {
      HeardHolds(f, u, v);
      HeardHolds(f, u, w);
    }
  }

  // ------------------------------------------------------------------ the others

  lemma CanHoldIsAmbiguous(f: InputField, u: Usage)
    requires Sized(f) && !KeyboardKey(f, u) && Digital(u) && u.id < WORD && CanHold(f, u)
    ensures !Unambiguous(f, u)
  {
    var short := f.defaultUsagePage == u.page && 0 < u.id < Top(f);
    var v := if short then u.id else Long(u.page, u.id);
    PossibleRange(f, v);
    if short { ShortUsage(f, v); } else { LongUsage(f, u.page, u.id, v); }
    assert Takes(f, v) && Holds(f, v, u) && !Heard(f, v, u);
  }

  lemma ClearOtherIsUnambiguous(f: InputField, u: Usage)
    requires Sized(f) && !KeyboardKey(f, u) && Digital(u) && u.id < WORD && Clear(f, u)
    ensures Unambiguous(f, u)
  {
    forall v | Takes(f, v) ensures !Holds(f, v, u) {
      var page, id := ValueShape(f, v);
      if page == 0 { ShortUsage(f, v); } else { LongUsage(f, page, id, v); }
    }
  }

  /** The test on the description decides the condition over all values. */
  lemma ClearIsUnambiguous(f: InputField, u: Usage)
    requires Sized(f) && Digital(u) && u.id < WORD
    ensures Clear(f, u) <==> Unambiguous(f, u)
  {
    if KeyboardKey(f, u) {
      if Clear(f, u) { ClearKeyboardIsUnambiguous(f, u); }
      else if Misheard(f, u) { MisheardIsMisheard(f, u); }
      else { TwiceIsAmbiguous(f, u); }
    } else {
      if Clear(f, u) { ClearOtherIsUnambiguous(f, u); } else { CanHoldIsAmbiguous(f, u); }
    }
  }

  /** So a listener is right about a key over all readings exactly when the test passes. */
  lemma TrustworthyIsRight(f: InputField, u: Usage)
    requires Sized(f) && Digital(u) && u.id < WORD
    ensures Trustworthy(f, u) <==> Trusted(f, u)
    ensures Trustworthy(f, u) <==> AlwaysRight(f, u)
  {
    if !f.flags.variable { ClearIsUnambiguous(f, u); }
    ReplayIsRightExactly(f, u);
  }
}
