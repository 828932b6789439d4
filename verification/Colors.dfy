/** Packing 8-bit colours into framebuffer channels of any width and place. */
module Colors {
  import opened Bits
  import opened Objects

  /** `size` bits from bit `shift` up. */
  datatype Channel = Channel(size: nat, shift: nat)

  datatype Layout = Layout(bitsPerPixel: nat, red: Channel, green: Channel, blue: Channel)

  datatype Rgb = Rgb(red: u8, green: u8, blue: u8)

  function Maximum(bits: nat): nat { Pow2(bits) - 1 }

  // ------------------------------------------------------------------ scaling

  function ScaleChannel(value: u8, bits: nat): nat
  {
    (value * Maximum(bits) + 127) / 255
  }

  function ExpandChannel(value: nat, bits: nat): nat
    requires bits > 0
  {
    (value * 255 + Maximum(bits) / 2) / Maximum(bits)
  }

  lemma MaximumBounds(bits: nat)
    ensures bits >= 1 ==> Maximum(bits) >= 1
    ensures bits >= 8 ==> Maximum(bits) >= 255
    ensures bits <= 8 ==> Maximum(bits) <= 255
  {
    assert Pow2(8) == 256;
    if bits >= 8 { PowGrows(8, bits); }
    if bits <= 8 { PowGrows(bits, 8); }
  }

  lemma ScaledFits(value: u8, bits: nat)
    ensures ScaleChannel(value, bits) < Pow2(bits)
  {
    var m := Maximum(bits);
    MulMonotone(value, 255, m);
  }

  lemma MulMonotone(a: nat, b: nat, d: nat)
    requires a <= b
    ensures a * d <= b * d
  {
    assert (b - a) * d >= 0;
    SubtractMultiple(b, a, d);
  }

  lemma ExpandedFits(value: nat, bits: nat)
    requires bits > 0 && value <= Maximum(bits)
    ensures 0 <= ExpandChannel(value, bits) <= 255
  {
    var m := Maximum(bits);
    MaximumBounds(bits);
    DivUnique(m * 255 + m / 2, m, 255, m / 2);
    DivUnique(m / 2, m, 0, m / 2);
    DivMonotone(m / 2, value * 255 + m / 2, m);
    DivMonotone(value * 255 + m / 2, m * 255 + m / 2, m);
  }

  /** A channel of at least 8 bits loses nothing. */
  lemma WideChannelIsExact(value: u8, bits: nat)
    requires bits >= 8
    ensures ExpandChannel(ScaleChannel(value, bits), bits) == value
  {
    var m := Maximum(bits);
    var product := value * m;
    MaximumBounds(bits);
    var s := (product + 127) / 255;
    DivUnique(s * 255 + m / 2, m, value, s * 255 + m / 2 - product);
  }

  /** A narrower one already loses the darkest shade. */
  lemma WideChannelsExactly(bits: nat)
    requires bits >= 1
    ensures bits >= 8 <==> forall value: u8 :: ExpandChannel(ScaleChannel(value, bits), bits) == value
  {
    if bits >= 8 {
      forall value: u8
        ensures ExpandChannel(ScaleChannel(value, bits), bits) == value
      {
        WideChannelIsExact(value, bits);
      }
    } else {
      DarkestIsLost(bits);
    }
  }

  lemma DarkestIsLost(bits: nat)
    requires 1 <= bits < 8
    ensures ExpandChannel(ScaleChannel(1, bits), bits) == 0
  {
    PowGrows(bits, 7);
    assert Pow2(7) == 128;
    assert ScaleChannel(1, bits) == 0;
  }

  /** A channel of at most 8 bits comes back from its expansion. */
  lemma NarrowChannelIsExact(value: nat, bits: nat)
    requires 1 <= bits <= 8 && value <= Maximum(bits)
    ensures ExpandChannel(value, bits) <= 255 && ScaleChannel(ExpandChannel(value, bits), bits) == value
  {
    var m := Maximum(bits);
    MaximumBounds(bits);
    var n := value * 255 + m / 2;
    var u := n / m;
    var product := u * m;
    assert n == product + n % m;
    DivUnique(m * 255 + m / 2, m, 255, m / 2);
    DivMonotone(n, m * 255 + m / 2, m);
    assert 0 <= product + 127 - 255 * value < 255;
  }

  // --------------------------------------------------------------------- bits

  /** Bitwise or. */
  function Or(a: nat, b: nat): nat
    decreases a + b
  {
    if a == 0 && b == 0 then 0
    else (if a % 2 == 1 || b % 2 == 1 then 1 else 0) + 2 * Or(a / 2, b / 2)
  }

  lemma {:induction false} ZeroBits(k: nat)
    ensures Bit(0, k) == 0
  {
    if k > 0 { ZeroBits(k - 1); }
  }

  lemma {:induction false} OrBits(a: nat, b: nat, k: nat)
    ensures Bit(Or(a, b), k) == if Bit(a, k) == 1 || Bit(b, k) == 1 then 1 else 0
    decreases k
  {
    if a == 0 && b == 0 {
      ZeroBits(k);
    } else if k > 0 {
      OrBits(a / 2, b / 2, k - 1);
    }
  }

  /** Numbers below 2^n with the same bits are the same. */
  lemma {:induction false} SameBits(a: nat, b: nat, n: nat)
    requires forall k :: 0 <= k < n ==> Bit(a, k) == Bit(b, k)
    ensures a % Pow2(n) == b % Pow2(n)
  {
    if n > 0 {
      SameBits(a, b, n - 1);
      NextBit(a, n - 1);
      NextBit(b, n - 1);
    }
  }

  lemma {:induction false} HighBitsAreZero(a: nat, n: nat, k: nat)
    requires a < Pow2(n) && n <= k
    ensures Bit(a, k) == 0
    decreases n
  {
    if n == 0 {
      ZeroBits(k);
    } else {
      HighBitsAreZero(a / 2, n - 1, k - 1);
    }
  }

  /** The bits of a value moved into its channel. */
  lemma PlacedBits(value: nat, c: Channel, k: nat)
    requires value < Pow2(c.size)
    ensures Bit(value * Pow2(c.shift), k) == if c.shift <= k < c.shift + c.size then Bit(value, k - c.shift) else 0
  {
    var placed := value * Pow2(c.shift);
    if k < c.shift {
      AddHighPart(0, value, c.shift, k);
      ZeroBits(k);
    } else {
      DivUnique(placed, Pow2(c.shift), value, 0);
      BitShifts(placed, c.shift, k - c.shift);
      if k >= c.shift + c.size { HighBitsAreZero(value, c.size, k - c.shift); }
    }
  }

  // ------------------------------------------------------------------ layouts

  function Mask(c: Channel): nat { Maximum(c.size) * Pow2(c.shift) }

  /** Some bit is set in both. */
  ghost predicate Share(a: nat, b: nat)
  {
    exists k: nat :: Bit(a, k) == 1 && Bit(b, k) == 1
  }

  /** What a framebuffer is checked for before it is claimed. */
  ghost predicate Accepted(l: Layout)
  {
    && 17 <= l.bitsPerPixel <= 32
    && (forall c :: c in {l.red, l.green, l.blue} ==> c.size > 0 && c.shift + c.size <= l.bitsPerPixel)
    && !Share(Mask(l.red), Mask(l.green)) && !Share(Mask(l.red), Mask(l.blue)) && !Share(Mask(l.green), Mask(l.blue))
  }

  predicate In(c: Channel, k: nat) { c.shift <= k < c.shift + c.size }

  lemma {:induction false} AllOnes(n: nat, k: nat)
    ensures Bit(Maximum(n), k) == if k < n then 1 else 0
    decreases n
  {
    if n == 0 {
      ZeroBits(k);
    } else {
      assert Maximum(n) == 2 * Maximum(n - 1) + 1;
      if k > 0 { AllOnes(n - 1, k - 1); }
    }
  }

  /** Masks share a bit exactly when the channels overlap. */
  lemma ShareIsOverlap(c: Channel, d: Channel)
    ensures Share(Mask(c), Mask(d)) <==> exists k: nat :: In(c, k) && In(d, k)
  {
    forall k: nat ensures Bit(Mask(c), k) == 1 <==> In(c, k) { MaskBits(c, k); }
    forall k: nat ensures Bit(Mask(d), k) == 1 <==> In(d, k) { MaskBits(d, k); }
    if k: nat :| In(c, k) && In(d, k) { assert Bit(Mask(c), k) == 1 && Bit(Mask(d), k) == 1; }
  }

  lemma MaskBits(c: Channel, k: nat)
    ensures Bit(Mask(c), k) == 1 <==> In(c, k)
  {
    PlacedBits(Maximum(c.size), c, k);
    if k >= c.shift { AllOnes(c.size, k - c.shift); }
  }

  // ------------------------------------------------------------------ colours

  function Placed(value: u8, c: Channel): nat { ScaleChannel(value, c.size) * Pow2(c.shift) }

  function PackColor(color: Rgb, l: Layout): nat
  {
    Or(Or(Placed(color.red, l.red), Placed(color.green, l.green)), Placed(color.blue, l.blue))
  }

  function UnpackChannel(packed: nat, c: Channel): nat
    requires c.size > 0
  {
    ExpandChannel(Extract(packed, c.shift, c.size), c.size)
  }

  lemma PackedBits(color: Rgb, l: Layout, k: nat)
    ensures Bit(PackColor(color, l), k) == 1 <==>
      (In(l.red, k) && Bit(ScaleChannel(color.red, l.red.size), k - l.red.shift) == 1) ||
      (In(l.green, k) && Bit(ScaleChannel(color.green, l.green.size), k - l.green.shift) == 1) ||
      (In(l.blue, k) && Bit(ScaleChannel(color.blue, l.blue.size), k - l.blue.shift) == 1)
  {
    ScaledFits(color.red, l.red.size);
    ScaledFits(color.green, l.green.size);
    ScaledFits(color.blue, l.blue.size);
    PlacedBits(ScaleChannel(color.red, l.red.size), l.red, k);
    PlacedBits(ScaleChannel(color.green, l.green.size), l.green, k);
    PlacedBits(ScaleChannel(color.blue, l.blue.size), l.blue, k);
    OrBits(Or(Placed(color.red, l.red), Placed(color.green, l.green)), Placed(color.blue, l.blue), k);
    OrBits(Placed(color.red, l.red), Placed(color.green, l.green), k);
  }

  /** The value and channel of one of the three colours. */
  predicate Component(color: Rgb, l: Layout, value: u8, c: Channel)
  {
    (value, c) in {(color.red, l.red), (color.green, l.green), (color.blue, l.blue)}
  }

  /** Each channel of a packed colour holds its own scaled value. */
  lemma ChannelOfPacked(color: Rgb, l: Layout, value: u8, c: Channel)
    requires Accepted(l) && Component(color, l, value, c)
    ensures Extract(PackColor(color, l), c.shift, c.size) == ScaleChannel(value, c.size)
  {
    var packed, s := PackColor(color, l), ScaleChannel(value, c.size);
    ShareIsOverlap(l.red, l.green);
    ShareIsOverlap(l.red, l.blue);
    ShareIsOverlap(l.green, l.blue);
    forall k | 0 <= k < c.size ensures Bit(Shifted(packed, c.shift), k) == Bit(s, k) {
      BitShifts(packed, c.shift, k);
      PackedBits(color, l, c.shift + k);
      assert In(c, c.shift + k);
    }
    SameBits(Shifted(packed, c.shift), s, c.size);
    ScaledFits(value, c.size);
    DivUnique(s, Pow2(c.size), 0, s);
  }

  /** The packed colour only uses bits of the pixel. */
  lemma PackedFits(color: Rgb, l: Layout)
    requires Accepted(l)
    ensures PackColor(color, l) < Pow2(l.bitsPerPixel)
  {
    var packed := PackColor(color, l);
    forall k: nat | k >= l.bitsPerPixel ensures Bit(packed, k) == 0 {
      assert l.red in {l.red, l.green, l.blue} && l.green in {l.red, l.green, l.blue};
      assert l.blue in {l.red, l.green, l.blue};
      PackedBits(color, l, k);
    }
    NoHighBits(packed, l.bitsPerPixel);
  }

  lemma {:induction false} NoHighBits(a: nat, n: nat)
    requires forall k: nat :: k >= n ==> Bit(a, k) == 0
    ensures a < Pow2(n)
    decreases n, a
  {
    if n > 0 {
      forall k: nat | k >= n - 1 ensures Bit(a / 2, k) == 0 { assert Bit(a, k + 1) == 0; }
      NoHighBits(a / 2, n - 1);
    } else if a > 0 {
      assert Bit(a, 0) == 0;
      forall k: nat ensures Bit(a / 2, k) == 0 { assert Bit(a, k + 1) == 0; }
      NoHighBits(a / 2, 0);
    }
  }

  /** The colour a packed pixel shows. */
  function ReadColor(packed: nat, l: Layout): Rgb
    requires l.red.size > 0 && l.green.size > 0 && l.blue.size > 0
  {
    ExpandedFits(Extract(packed, l.red.shift, l.red.size), l.red.size);
    ExpandedFits(Extract(packed, l.green.shift, l.green.size), l.green.size);
    ExpandedFits(Extract(packed, l.blue.shift, l.blue.size), l.blue.size);
    Rgb(UnpackChannel(packed, l.red), UnpackChannel(packed, l.green), UnpackChannel(packed, l.blue))
  }

  /** With channels of at least 8 bits every colour reads back as written. */
  lemma WideColorsAreExact(color: Rgb, l: Layout)
    requires Accepted(l) && l.red.size >= 8 && l.green.size >= 8 && l.blue.size >= 8
    ensures ReadColor(PackColor(color, l), l) == color
  {
    ChannelOfPacked(color, l, color.red, l.red);
    ChannelOfPacked(color, l, color.green, l.green);
    ChannelOfPacked(color, l, color.blue, l.blue);
    WideChannelIsExact(color.red, l.red.size);
    WideChannelIsExact(color.green, l.green.size);
    WideChannelIsExact(color.blue, l.blue.size);
  }

  lemma NarrowIsByte(packed: nat, c: Channel)
    requires 1 <= c.size <= 8
    ensures 0 <= UnpackChannel(packed, c) <= 255
    ensures ScaleChannel(UnpackChannel(packed, c), c.size) == Extract(packed, c.shift, c.size)
  {
    NarrowChannelIsExact(Extract(packed, c.shift, c.size), c.size);
  }

  lemma ExtractedBit(packed: nat, c: Channel, k: nat)
    requires In(c, k)
    ensures Bit(Extract(packed, c.shift, c.size), k - c.shift) == Bit(packed, k)
  {
    LowBits(Shifted(packed, c.shift), c.size, k - c.shift);
    BitShifts(packed, c.shift, k - c.shift);
  }

  lemma {:induction false} LowBits(a: nat, n: nat, k: nat)
    requires k < n
    ensures Bit(a % Pow2(n), k) == Bit(a, k)
    decreases n
  {
    HalveThenDivide(a, Pow2(n - 1));
    if k > 0 { LowBits(a / 2, n - 1, k - 1); }
  }

  /** With channels of at most 8 bits, packing what was read gives the same pixel. */
  lemma NarrowPixelsAreExact(packed: nat, l: Layout)
    requires Accepted(l) && l.red.size <= 8 && l.green.size <= 8 && l.blue.size <= 8
    requires packed < Pow2(l.bitsPerPixel)
    requires forall k: nat :: Bit(packed, k) == 1 ==> In(l.red, k) || In(l.green, k) || In(l.blue, k)
    ensures l.red.size >= 1 && l.green.size >= 1 && l.blue.size >= 1 && PackColor(ReadColor(packed, l), l) == packed
  {
    assert l.red in {l.red, l.green, l.blue} && l.green in {l.red, l.green, l.blue};
    assert l.blue in {l.red, l.green, l.blue};
    var color := ReadColor(packed, l);
    NarrowIsByte(packed, l.red);
    NarrowIsByte(packed, l.green);
    NarrowIsByte(packed, l.blue);
    forall k: nat | k < l.bitsPerPixel ensures Bit(PackColor(color, l), k) == Bit(packed, k) {
      PackedBits(color, l, k);
      if In(l.red, k) { ExtractedBit(packed, l.red, k); }
      if In(l.green, k) { ExtractedBit(packed, l.green, k); }
      if In(l.blue, k) { ExtractedBit(packed, l.blue, k); }
    }
    SameBits(PackColor(color, l), packed, l.bitsPerPixel);
    PackedFits(color, l);
    DivUnique(packed, Pow2(l.bitsPerPixel), 0, packed);
    DivUnique(PackColor(color, l), Pow2(l.bitsPerPixel), 0, PackColor(color, l));
  }
}
