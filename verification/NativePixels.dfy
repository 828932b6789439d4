/** The native layout's wide stores against the mask-aware pixel path, and which raw
    framebuffers are claimed. */
module NativePixels {
  import opened Bits
  import opened Colors
  import opened Fields
  import opened Framebuffer
  import opened LittleEndian
  import opened Objects

  // ------------------------------------------------- the two paths side by side

  const NATIVE := Layout(32, Channel(8, 16), Channel(8, 8), Channel(8, 0))

  lemma SmallPowers()
    ensures Pow2(0) == 1 && Pow2(8) == 0x100 && Pow2(16) == 0x1_0000 && Pow2(24) == 0x100_0000
    ensures Pow2(32) == 0x1_0000_0000
  {
    assert Pow2(8) == 0x100;
    PowAdds(8, 8);
    PowAdds(16, 8);
    PowAdds(16, 16);
  }

  /** Channels of the native layout do not overlap, even in 24 bits. */
  lemma NativeIsAccepted(bits: nat)
    requires 24 <= bits <= 32
    ensures Accepted(NATIVE.(bitsPerPixel := bits))
  {
    ShareIsOverlap(NATIVE.red, NATIVE.green);
    ShareIsOverlap(NATIVE.red, NATIVE.blue);
    ShareIsOverlap(NATIVE.green, NATIVE.blue);
  }

  lemma ByteScales(value: u8)
    ensures ScaleChannel(value, 8) == value && ExpandChannel(value, 8) == value
  {
    SmallPowers();
  }

  /** A number below 2^24 from its three bytes. */
  lemma ThreeBytes(n: nat, a: u8, b: u8, c: u8)
    requires n < 0x100_0000 && n % 0x100 == a && (n / 0x100) % 0x100 == b && (n / 0x1_0000) % 0x100 == c
    ensures ToBytes(n, 4) == [a, b, c, 0]
  {
    assert ToBytes(n, 4) ==
      [n % 0x100, (n / 0x100) % 0x100, (n / 0x100 / 0x100) % 0x100, (n / 0x100 / 0x100 / 0x100) % 0x100];
    assert n / 0x100 / 0x100 == n / 0x1_0000 && n / 0x100 / 0x100 / 0x100 == 0;
  }

  lemma ByteAtShift(n: nat, shift: nat, d: nat)
    requires Pow2(shift) == d
    ensures Extract(n, shift, 8) == (n / d) % 0x100
  {
    SmallPowers();
  }

  /** One channel of a natively packed colour, as a byte. */
  lemma NativeByte(color: Rgb, value: u8, c: Channel, d: nat)
    requires Component(color, NATIVE, value, c) && Pow2(c.shift) == d
    ensures (PackColor(color, NATIVE) / d) % 0x100 == value
  {
    NativeIsAccepted(32);
    ChannelOfPacked(color, NATIVE, value, c);
    ByteScales(value);
    ByteAtShift(PackColor(color, NATIVE), c.shift, d);
  }

  lemma NativeFits(color: Rgb)
    ensures PackColor(color, NATIVE) < 0x100_0000
  {
    NativeIsAccepted(24);
    PackedFits(color, NATIVE.(bitsPerPixel := 24));
    SmallPowers();
  }

  lemma NativeBytes(color: Rgb)
    ensures ToBytes(PackColor(color, NATIVE), 4) == [color.blue, color.green, color.red, 0]
  {
    SmallPowers();
    NativeFits(color);
    NativeByte(color, color.blue, NATIVE.blue, 1);
    NativeByte(color, color.green, NATIVE.green, 0x100);
    NativeByte(color, color.red, NATIVE.red, 0x1_0000);
    ThreeBytes(PackColor(color, NATIVE), color.blue, color.green, color.red);
  }

  /** The pixel path stores the colour and zero in the unused byte. */
  lemma NativeCell(g: Geometry, p: Pixel)
    requires NativeLayout(g.layout)
    ensures Cell(g, ColorOf(p)) == Raw(p.(alphaOrUnused := 0))
  {
    NativeBytes(ColorOf(p));
  }

  /** So the wide path stores the same bytes exactly when the unused byte is zero. */
  lemma NativePixelAgreesExactly(g: Geometry, p: Pixel)
    requires NativeLayout(g.layout)
    ensures Raw(p) == Cell(g, ColorOf(p)) <==> p.alphaOrUnused == 0
  {
    NativeCell(g, p);
    assert Raw(p)[3] == p.alphaOrUnused;
  }

  lemma FourBytes(a: u8, b: u8, c: u8, d: u8)
    ensures
      var n := FromBytes([a, b, c, d]);
      n % 0x100 == a && (n / 0x100) % 0x100 == b && (n / 0x1_0000) % 0x100 == c
  {
    var n := a + 0x100 * (b + 0x100 * (c + 0x100 * d));
    assert [a, b, c, d][1..] == [b, c, d] && [b, c, d][1..] == [c, d] && [c, d][1..] == [d] && [d][1..] == [];
    assert FromBytes([d]) == d + 0x100 * FromBytes([]);
    assert FromBytes([c, d]) == c + 0x100 * FromBytes([d]);
    assert FromBytes([b, c, d]) == b + 0x100 * FromBytes([c, d]);
    assert FromBytes([a, b, c, d]) == a + 0x100 * FromBytes([b, c, d]);
    assert n / 0x100 == b + 0x100 * (c + 0x100 * d) && n / 0x1_0000 == c + 0x100 * d;
  }

  /** And whatever the unused byte holds, it reads back as the same colour. */
  lemma NativePixelShowsItsColor(g: Geometry, p: Pixel)
    requires NativeLayout(g.layout)
    ensures ReadColor(FromBytes(Raw(p)), g.layout) == ColorOf(p)
  {
    FourBytes(p.blue, p.green, p.red, p.alphaOrUnused);
    SmallPowers();
    ByteScales(p.red);
    ByteScales(p.green);
    ByteScales(p.blue);
    assert FromBytes(Raw(p)) / 1 == FromBytes(Raw(p));
  }

  /** A row written pixel by pixel through the masks. */
  function PixelRow(g: Geometry, pixels: seq<Pixel>): (row: Bytes)
  {
    if pixels == [] then [] else Cell(g, ColorOf(pixels[0])) + PixelRow(g, pixels[1..])
  }

  predicate NoAlpha(pixels: seq<Pixel>) { forall i :: 0 <= i < |pixels| ==> pixels[i].alphaOrUnused == 0 }

  lemma SamePrefix(a: Bytes, b: Bytes, c: Bytes, d: Bytes)
    requires |a| == |c|
    ensures a + b == c + d <==> a == c && b == d
  {
    if a + b == c + d {
      assert (a + b)[..|a|] == a && (c + d)[..|c|] == c && (a + b)[|a|..] == b && (c + d)[|c|..] == d;
    }
  }

  /** Whole rows: the wide stores and the pixel path leave the same bytes exactly when no
      pixel carries anything in its unused byte. */
  lemma {:induction false} NativeRowAgreesExactly(g: Geometry, pixels: seq<Pixel>)
    requires NativeLayout(g.layout)
    ensures RowCells(g, pixels) == PixelRow(g, pixels) <==> NoAlpha(pixels)
  {
    NativeRowCells(g, pixels);
    if pixels != [] {
      NativeRowAgreesExactly(g, pixels[1..]);
      NativeRowCells(g, pixels[1..]);
      NativePixelAgreesExactly(g, pixels[0]);
      SamePrefix(Raw(pixels[0]), RowBytes(pixels[1..]), Cell(g, ColorOf(pixels[0])), PixelRow(g, pixels[1..]));
      assert NoAlpha(pixels) <==> pixels[0].alphaOrUnused == 0 && NoAlpha(pixels[1..]) by {
        if pixels[0].alphaOrUnused == 0 && NoAlpha(pixels[1..]) {
          forall i | 0 <= i < |pixels| ensures pixels[i].alphaOrUnused == 0 {
            if i > 0 { assert pixels[i] == pixels[1..][i - 1]; }
          }
        }
      }
    }
  }

  /** For every other layout the row is the pixel path's by definition of its cells. */
  lemma {:induction false} ConvertedRowAgrees(g: Geometry, pixels: seq<Pixel>)
    requires !NativeLayout(g.layout)
    ensures RowCells(g, pixels) == PixelRow(g, pixels)
  {
    if pixels != [] {
      ConvertedRowAgrees(g, pixels[1..]);
      assert Cells(g, pixels)[1..] == Cells(g, pixels[1..]);
    }
  }

  // -------------------------------------------------------------- whole regions

  lemma {:induction false} PixelRowLength(g: Geometry, pixels: seq<Pixel>)
    ensures |PixelRow(g, pixels)| == |pixels| * BytesPerPixel(g)
  {
    if pixels != [] {
      PixelRowLength(g, pixels[1..]);
      MulStep(|pixels| - 1, BytesPerPixel(g));
    }
  }

  /** Rows of pixels, each written pixel by pixel. */
  function PixelRows(g: Geometry, rows: seq<seq<Pixel>>): (cells: seq<Bytes>)
    ensures |cells| == |rows| && forall k :: 0 <= k < |rows| ==> cells[k] == PixelRow(g, rows[k])
  {
    seq(|rows|, k requires 0 <= k < |rows| => PixelRow(g, rows[k]))
  }

  lemma PixelRowsFit(m: Bytes, g: Geometry, x: nat, y: nat, rows: seq<seq<Pixel>>, width: nat)
    requires Claimable(g) && |m| == Mapped(g) && EqualRows(rows, width)
    requires x + width <= g.width && y + |rows| <= g.height
    ensures RowsFit(m, RowStarts(g, x, y, |rows|), PixelRows(g, rows))
    ensures Apart(RowStarts(g, x, y, |rows|), PixelRows(g, rows))
  {
    var cells := PixelRows(g, rows);
    forall k | 0 <= k < |cells| ensures |cells[k]| == width * BytesPerPixel(g) { PixelRowLength(g, rows[k]); }
    RectangleFits(m, g, x, y, cells, width);
  }

  /** Painting rows that lie apart tells them apart: the same picture means the same rows. */
  lemma SamePictureSameRows(m: Bytes, starts: seq<nat>, a: seq<Bytes>, b: seq<Bytes>)
    requires RowsFit(m, starts, a) && RowsFit(m, starts, b) && Apart(starts, a) && Apart(starts, b)
    requires |a| == |b| && forall k :: 0 <= k < |a| ==> |a[k]| == |b[k]|
    ensures PaintRows(m, starts, a) == PaintRows(m, starts, b) <==> a == b
  {
    if PaintRows(m, starts, a) == PaintRows(m, starts, b) {
      forall k | 0 <= k < |a| ensures a[k] == b[k] {
        RowsHold(m, starts, a, k);
        RowsHold(m, starts, b, k);
      }
    }
  }

  /** Whether the pixel path would store the same bytes for these rows. */
  predicate Plain(g: Geometry, rows: seq<seq<Pixel>>)
  {
    NativeLayout(g.layout) ==> forall k :: 0 <= k < |rows| ==> NoAlpha(rows[k])
  }

  lemma SameRowsExactly(g: Geometry, rows: seq<seq<Pixel>>)
    ensures CellRows(g, rows) == PixelRows(g, rows) <==> Plain(g, rows)
  {
    forall k | 0 <= k < |rows|
      ensures RowCells(g, rows[k]) == PixelRow(g, rows[k]) <==> NativeLayout(g.layout) ==> NoAlpha(rows[k])
    {
      if NativeLayout(g.layout) { NativeRowAgreesExactly(g, rows[k]); } else { ConvertedRowAgrees(g, rows[k]); }
    }
    if CellRows(g, rows) == PixelRows(g, rows) {
      forall k | 0 <= k < |rows| ensures RowCells(g, rows[k]) == PixelRow(g, rows[k]) {
        assert CellRows(g, rows)[k] == PixelRows(g, rows)[k];
      }
    }
  }

  /** A region of a scene, as the writer leaves it in memory, is what the pixel path would
      leave exactly when the layout converts, or no pixel of the region carries anything in
      its unused byte. */
  lemma RegionAgreesExactly(
    m: Bytes, g: Geometry, pixels: seq<Pixel>, sceneWidth: nat, x: nat, y: nat, width: nat, height: nat)
    requires Claimable(g) && |m| == Mapped(g) && InScene(pixels, sceneWidth, x, y, width, height)
    requires x + width <= g.width && y + height <= g.height
    ensures
      var rows, starts := SceneSlices(pixels, sceneWidth, x, y, width, height), RowStarts(g, x, y, height);
      && RowsFit(m, starts, CellRows(g, rows)) && RowsFit(m, starts, PixelRows(g, rows))
      && (PaintRows(m, starts, CellRows(g, rows)) == PaintRows(m, starts, PixelRows(g, rows)) <==> Plain(g, rows))
  {
    var rows := SceneSlices(pixels, sceneWidth, x, y, width, height);
    CellRowsFit(m, g, x, y, rows, width);
    PixelRowsFit(m, g, x, y, rows, width);
    forall k | 0 <= k < |rows| ensures |CellRows(g, rows)[k]| == |PixelRows(g, rows)[k]| {
      RowCellsLength(g, rows[k]);
      PixelRowLength(g, rows[k]);
    }
    SamePictureSameRows(m, RowStarts(g, x, y, height), CellRows(g, rows), PixelRows(g, rows));
    SameRowsExactly(g, rows);
  }

  // --------------------------------------------------- claiming a framebuffer

  const RGB_MEMORY_MODEL: nat := 1
  const ISIZE_MAX: nat := 0x7FFF_FFFF_FFFF_FFFF
  const ADDRESS_SPAN: nat := 0x1_0000_0000_0000_0000
  const U32_SPAN: nat := 0x1_0000_0000

  /** What firmware reports about a framebuffer. */
  datatype Config = Config(address: nat, memoryModel: nat, geometry: Geometry)

  /** Subtracting one saturates at zero. */
  function LastByte(mapped: nat): nat { if mapped == 0 then 0 else mapped - 1 }

  /** RGB, somewhere, of a size that can be addressed, its rows inside the pitch. */
  predicate SizesOk(c: Config, rowBytes: nat, mapped: nat)
  {
    && c.address != 0 && c.memoryModel == RGB_MEMORY_MODEL
    && 0 < c.geometry.width < U32_SPAN && 0 < c.geometry.height < U32_SPAN && rowBytes <= c.geometry.pitch
    && mapped <= ISIZE_MAX && c.address + LastByte(mapped) < ADDRESS_SPAN
  }

  ghost predicate Usable(c: Config)
  {
    SizesOk(c, c.geometry.width * BytesPerPixel(c.geometry), c.geometry.pitch * c.geometry.height)
    && Accepted(c.geometry.layout)
  }

  /** Bitwise and. */
  function And(a: nat, b: nat): nat
    decreases a
  {
    if a == 0 then 0 else (if a % 2 == 1 && b % 2 == 1 then 1 else 0) + 2 * And(a / 2, b / 2)
  }

  lemma {:induction false} AndShares(a: nat, b: nat, k: nat)
    requires Bit(a, k) == 1 && Bit(b, k) == 1
    ensures And(a, b) != 0
    decreases k
  {
    if a == 0 {
      ZeroBits(k);
    } else if k > 0 {
      AndShares(a / 2, b / 2, k - 1);
    }
  }

  lemma {:induction false} AndFinds(a: nat, b: nat) returns (k: nat)
    requires And(a, b) != 0
    ensures Bit(a, k) == 1 && Bit(b, k) == 1
    decreases a
  {
    if a % 2 == 1 && b % 2 == 1 {
      k := 0;
    } else {
      var j := AndFinds(a / 2, b / 2);
      k := j + 1;
    }
  }

  /** Two masks overlap exactly when their conjunction is not zero. */
  lemma AndIsShare(a: nat, b: nat)
    ensures And(a, b) != 0 <==> Share(a, b)
  {
    if And(a, b) != 0 { var k := AndFinds(a, b); }
    if Share(a, b) {
      var k: nat :| Bit(a, k) == 1 && Bit(b, k) == 1;
      AndShares(a, b, k);
    }
  }

  /** The mask of a channel, if it is not empty and lies in 32 bits. */
  function PackedMask(c: Channel): Option<nat>
  {
    if c.size == 0 || c.size + c.shift > 32 then None else Some(Mask(c))
  }

  predicate ChannelFits(c: Channel, bits: nat) { c.size > 0 && c.shift + c.size <= bits }

  method LayoutIsSound(l: Layout) returns (ok: bool)
    ensures ok <==> Accepted(l)
  {
    var red, green, blue := PackedMask(l.red), PackedMask(l.green), PackedMask(l.blue);
    if red.None? || green.None? || blue.None? { return false; }
    AndIsShare(red.value, green.value);
    AndIsShare(red.value, blue.value);
    AndIsShare(green.value, blue.value);
    var overlap :=
      And(red.value, green.value) != 0 || And(red.value, blue.value) != 0 || And(green.value, blue.value) != 0;
    ok := 3 <= (l.bitsPerPixel + 7) / 8 <= 4 && !overlap &&
      ChannelFits(l.red, l.bitsPerPixel) && ChannelFits(l.green, l.bitsPerPixel) && ChannelFits(l.blue, l.bitsPerPixel);
  }

  method SizesAreSound(c: Config, rowBytes: nat, mapped: nat) returns (ok: bool)
    ensures ok <==> SizesOk(c, rowBytes, mapped)
  {
    var g := c.geometry;
    if g.width >= U32_SPAN || g.height >= U32_SPAN || mapped >= ADDRESS_SPAN { return false; }
    return !(c.address == 0 || g.width == 0 || g.height == 0 || c.memoryModel != RGB_MEMORY_MODEL || g.pitch < rowBytes
             || mapped > ISIZE_MAX || c.address + LastByte(mapped) >= ADDRESS_SPAN);
  }

  /** Claims a framebuffer exactly when it is usable. */
  method FromRaw(c: Config) returns (r: Option<FramebufferWriter>)
    ensures r.Some? <==> Usable(c)
    ensures r.Some? ==> fresh(r.value) && r.value.Valid() && r.value.base == c.address && r.value.geometry == c.geometry
  {
    var g := c.geometry;
    var rowBytes, mapped := g.width * BytesPerPixel(g), g.pitch * g.height;
    var sound := LayoutIsSound(g.layout);
    var sized := SizesAreSound(c, rowBytes, mapped);
    if !sound || !sized { return None; }
    var writer := new FramebufferWriter(c.address, g);
    return Some(writer);
  }
}
