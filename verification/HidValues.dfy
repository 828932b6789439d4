/** Bit extraction, sign extension and axis scaling of HID reports. */
module HidValues {
  import opened Bits
  import opened LittleEndian
  import opened Objects

  const AXIS_MIN: int := -32767
  const AXIS_MAX: int := 32767

  // ----------------------------------------------------------------- fields

  /** Reads `size` bits one at a time: the little-endian number shifted right by the offset
      and reduced modulo 2^size. */
  method ReadBits(bytes: seq<u8>, offset: nat, size: nat) returns (value: nat)
    requires offset + size <= 8 * |bytes|
    ensures value == Extract(FromBytes(bytes), offset, size)
  {
    value := 0;
    for bit := 0 to size
      invariant value == Extract(FromBytes(bytes), offset, bit)
    {
      var source := offset + bit;
      ExtractNext(bytes, offset, bit);
      value := value + Bit(bytes[source / 8], source % 8) * Pow2(bit);
    }
  }

  // ---------------------------------------------------------- sign extension

  function AsI32(x: nat): int
    requires x < SPAN_32
  {
    if x < 0x8000_0000 then x else x - SPAN_32
  }

  /** Shifts the value to the top of a 32-bit word and back down arithmetically. */
  function LogicalValue(raw: nat, size: nat, logicalMin: int): int
    requires 1 <= size <= 32
  {
    if logicalMin >= 0 then raw
    else AsI32((raw * Pow2(32 - size)) % SPAN_32) / Pow2(32 - size)
  }

  /** Moving `size` bits to the top of the word loses nothing and keeps the sign bit on top. */
  lemma TopOfWord(raw: nat, size: nat)
    requires 1 <= size <= 32 && raw < Pow2(size)
    ensures raw * Pow2(32 - size) < SPAN_32 == Pow2(size) * Pow2(32 - size)
    ensures raw < Pow2(size - 1) <==> raw * Pow2(32 - size) < 0x8000_0000
  {
    PowAdds(size, 32 - size);
    PowAdds(size - 1, 32 - size);
    Pow32();
    MulLess(raw, Pow2(size), Pow2(32 - size));
    MulLess(raw, Pow2(size - 1), Pow2(32 - size));
  }

  /** That is the two's complement reading of `size` bits. */
  lemma LogicalValueIsSigned(raw: nat, size: nat, logicalMin: int)
    requires 1 <= size <= 32 && raw < Pow2(size)
    ensures logicalMin >= 0 ==> LogicalValue(raw, size, logicalMin) == raw
    ensures logicalMin < 0 ==>
      LogicalValue(raw, size, logicalMin) == if raw < Pow2(size - 1) then raw else raw - Pow2(size)
  {
    var d := Pow2(32 - size);
    TopOfWord(raw, size);
    var top := raw * d;
    DivUnique(top, SPAN_32, 0, top);
    if raw < Pow2(size - 1) {
      DivUnique(top, d, raw, 0);
    } else {
      SubtractMultiple(raw, Pow2(size), d);
      DivUnique(top - SPAN_32, d, raw - Pow2(size), 0);
    }
  }

  // ------------------------------------------------------------ axis scaling

  function Clamp(value: int, low: int, high: int): int
    requires low <= high
  {
    if value < low then low else if value > high then high else value
  }

  function NormalizeAxis(value: int, minimum: int, maximum: int): int
  {
    if maximum <= minimum then 0
    else
      var span := maximum - minimum;
      var scaled := (Clamp(value, minimum, maximum) - minimum) * (AXIS_MAX - AXIS_MIN);
      AXIS_MIN + (scaled + span / 2) / span
  }

  /** The scaled axis stays in range, hits both ends, and never decreases. */
  lemma NormalizeAxisIsMonotone(a: int, b: int, minimum: int, maximum: int)
    requires a <= b
    ensures AXIS_MIN <= NormalizeAxis(a, minimum, maximum) <= NormalizeAxis(b, minimum, maximum) <= AXIS_MAX
    ensures minimum < maximum ==> NormalizeAxis(minimum, minimum, maximum) == AXIS_MIN
    ensures minimum < maximum ==> NormalizeAxis(maximum, minimum, maximum) == AXIS_MAX
  {
    if minimum < maximum {
      var span := maximum - minimum;
      var x, y := Clamp(a, minimum, maximum) - minimum, Clamp(b, minimum, maximum) - minimum;
      DivUnique(span / 2, span, 0, span / 2);
      DivUnique(span * 65534 + span / 2, span, 65534, span / 2);
      DivMonotone(span / 2, x * 65534 + span / 2, span);
      DivMonotone(x * 65534 + span / 2, y * 65534 + span / 2, span);
      DivMonotone(y * 65534 + span / 2, span * 65534 + span / 2, span);
    }
  }
}
