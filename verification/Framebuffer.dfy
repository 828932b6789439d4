/** Framebuffer memory: wide aligned stores against one pixel at a time. */
module Framebuffer {
  import opened Bits
  import opened Colors
  import opened Fields
  import opened LittleEndian
  import opened Objects

  /** A surface pixel; its bytes lie in memory in this order. */
  datatype Pixel = Pixel(blue: u8, green: u8, red: u8, alphaOrUnused: u8)

  function Raw(p: Pixel): Bytes { [p.blue, p.green, p.red, p.alphaOrUnused] }

  /** Memory with some bytes replaced. */
  function Overlay(m: Bytes, at: nat, bytes: Bytes): (r: Bytes)
    requires at + |bytes| <= |m|
    ensures |r| == |m|
  {
    m[..at] + bytes + m[at + |bytes|..]
  }

  lemma OverlayTwice(m: Bytes, at: nat, a: Bytes, b: Bytes)
    requires at + |a| + |b| <= |m|
    ensures Overlay(Overlay(m, at, a), at + |a|, b) == Overlay(m, at, a + b)
  {
  }

  lemma OverlayNothing(m: Bytes, at: nat)
    requires at <= |m|
    ensures Overlay(m, at, []) == m
  {
  }

  // ---------------------------------------------------------------- alignment

  lemma NextPixel(address: nat, x: nat)
    requires address % 4 == 0
    ensures (address + 4 * x) % 4 == 0
  {
  }

  lemma NextGroup(address: nat, n: nat)
    requires n in {2, 4} && address % (4 * n) == 0
    ensures (address + 4 * n) % (4 * n) == 0
  {
    if n == 2 {
      assert (address + 8) % 8 == address % 8;
    } else {
      assert (address + 16) % 16 == address % 16;
    }
  }

  lemma SmallerGroup(address: nat)
    requires address % 16 == 0
    ensures address % 8 == 0
  {
  }

  /** One word past a word boundary that is no pair boundary is a pair boundary. */
  lemma AfterFirst(address: nat)
    requires address % 4 == 0 && address % 8 != 0
    ensures (address + 4) % 8 == 0
  {
  }

  // ------------------------------------------------------------ rows of pixels

  /** The pixels' bytes, one behind the other. */
  function RowBytes(pixels: seq<Pixel>): (bytes: Bytes)
    ensures |bytes| == 4 * |pixels|
  {
    if pixels == [] then [] else Raw(pixels[0]) + RowBytes(pixels[1..])
  }

  lemma {:induction false} RowConcat(a: seq<Pixel>, b: seq<Pixel>)
    ensures RowBytes(a + b) == RowBytes(a) + RowBytes(b)
  {
    if a == [] {
      assert a + b == b;
    } else {
      assert (a + b)[1..] == a[1..] + b;
      RowConcat(a[1..], b);
    }
  }

  /** The reference: one pixel after another. */
  function PaintRow(m: Bytes, at: nat, pixels: seq<Pixel>): (r: Bytes)
    requires at + 4 * |pixels| <= |m|
    ensures |r| == |m|
  {
    if pixels == [] then m
    else
      var n := |pixels| - 1;
      Overlay(PaintRow(m, at, pixels[..n]), at + 4 * n, Raw(pixels[n]))
  }

  lemma {:induction false} PaintRowIsOverlay(m: Bytes, at: nat, pixels: seq<Pixel>)
    requires at + 4 * |pixels| <= |m|
    ensures PaintRow(m, at, pixels) == Overlay(m, at, RowBytes(pixels))
  {
    if pixels != [] {
      var n := |pixels| - 1;
      PaintRowIsOverlay(m, at, pixels[..n]);
      RowLast(pixels);
      OverlayTwice(m, at, RowBytes(pixels[..n]), Raw(pixels[n]));
    }
  }

  lemma RowLast(pixels: seq<Pixel>)
    requires pixels != []
    ensures RowBytes(pixels) == RowBytes(pixels[..|pixels| - 1]) + Raw(pixels[|pixels| - 1])
  {
    var n := |pixels| - 1;
    RowConcat(pixels[..n], [pixels[n]]);
    assert pixels == pixels[..n] + [pixels[n]] && RowBytes([pixels[n]]) == Raw(pixels[n]);
  }

  // ----------------------------------------------------------------- geometry

  datatype Geometry = Geometry(width: nat, height: nat, pitch: nat, layout: Layout)

  function BytesPerPixel(g: Geometry): nat { (g.layout.bitsPerPixel + 7) / 8 }

  /** What a framebuffer is checked for before it is claimed. */
  ghost predicate Claimable(g: Geometry)
  {
    g.width > 0 && g.height > 0 && Accepted(g.layout) && g.width * BytesPerPixel(g) <= g.pitch
  }

  /** The bytes all rows take up. */
  function Mapped(g: Geometry): nat { g.pitch * g.height }

  function Offset(g: Geometry, x: nat, y: nat): nat { y * g.pitch + x * BytesPerPixel(g) }

  lemma MulStep(n: nat, d: nat)
    ensures (n + 1) * d == n * d + d
  {
  }

  lemma MulLe(a: nat, b: nat, d: nat)
    requires a <= b
    ensures a * d <= b * d
  {
    MulMonotone(a, b, d);
  }

  /** A run of pixels inside a row stays inside that row. */
  lemma RunInside(g: Geometry, x: nat, y: nat, n: nat)
    requires Claimable(g) && x + n <= g.width && y < g.height
    ensures Offset(g, x, y) + n * BytesPerPixel(g) <= (y + 1) * g.pitch <= g.pitch * g.height
  {
    var b := BytesPerPixel(g);
    MulLe(x + n, g.width, b);
    assert (x + n) * b == x * b + n * b;
    assert (y + 1) * g.pitch == y * g.pitch + g.pitch;
    MulLe(y + 1, g.height, g.pitch);
    assert g.height * g.pitch == g.pitch * g.height;
  }

  /** Where the rows of a rectangle start. */
  function RowStarts(g: Geometry, x: nat, top: nat, n: nat): (at: seq<nat>)
    ensures |at| == n
  {
    seq<nat>(n, k requires 0 <= k < n => Offset(g, x, top + k))
  }

  predicate RowsFit(m: Bytes, at: seq<nat>, rows: seq<Bytes>)
  {
    |rows| <= |at| && forall k :: 0 <= k < |rows| ==> at[k] + |rows[k]| <= |m|
  }

  /** Each row ends before the ones below it begin. */
  predicate Apart(at: seq<nat>, rows: seq<Bytes>)
    requires |rows| <= |at|
  {
    forall i, j :: 0 <= i < j < |rows| ==> at[i] + |rows[i]| <= at[j]
  }

  /** Rows painted from the top down, each in one piece. */
  function PaintRows(m: Bytes, at: seq<nat>, rows: seq<Bytes>): (r: Bytes)
    requires RowsFit(m, at, rows)
    ensures |r| == |m|
  {
    if rows == [] then m
    else
      var n := |rows| - 1;
      Overlay(PaintRows(m, at, rows[..n]), at[n], rows[n])
  }

  /** Nothing outside the rows is touched. */
  lemma {:induction false} OutsideIsUntouched(m: Bytes, at: seq<nat>, rows: seq<Bytes>, i: nat)
    requires RowsFit(m, at, rows) && i < |m|
    requires forall k :: 0 <= k < |rows| ==> !(at[k] <= i < at[k] + |rows[k]|)
    ensures PaintRows(m, at, rows)[i] == m[i]
  {
    if rows != [] {
      var n := |rows| - 1;
      OutsideIsUntouched(m, at, rows[..n], i);
      assert !(at[n] <= i < at[n] + |rows[n]|);
    }
  }

  /** Every painted row is still there at the end. */
  lemma {:induction false} RowsHold(m: Bytes, at: seq<nat>, rows: seq<Bytes>, k: nat)
    requires RowsFit(m, at, rows) && Apart(at, rows) && k < |rows|
    ensures PaintRows(m, at, rows)[at[k]..at[k] + |rows[k]|] == rows[k]
    decreases |rows|
  {
    var last := |rows| - 1;
    var painted := PaintRows(m, at, rows[..last]);
    if k < last {
      RowsHold(m, at, rows[..last], k);
      assert at[k] + |rows[k]| <= at[last];
      assert Overlay(painted, at[last], rows[last])[at[k]..at[k] + |rows[k]|] == painted[at[k]..at[k] + |rows[k]|];
    } else {
      assert Overlay(painted, at[k], rows[k])[at[k]..at[k] + |rows[k]|] == rows[k];
    }
  }

  lemma PaintNextRow(m: Bytes, at: seq<nat>, rows: seq<Bytes>, n: nat)
    requires RowsFit(m, at, rows) && n < |rows|
    ensures RowsFit(m, at, rows[..n]) && RowsFit(m, at, rows[..n + 1])
    ensures PaintRows(m, at, rows[..n + 1]) == Overlay(PaintRows(m, at, rows[..n]), at[n], rows[n])
  {
    assert rows[..n + 1][..n] == rows[..n] && rows[..n + 1][n] == rows[n];
  }

  lemma RowFits(m: Bytes, g: Geometry, x: nat, y: nat, row: Bytes, n: nat)
    requires Claimable(g) && |m| == Mapped(g) && x + n <= g.width
    requires y < g.height && |row| == n * BytesPerPixel(g)
    ensures Offset(g, x, y) + |row| <= |m|
  {
    RunInside(g, x, y, n);
  }

  lemma RowsAreApart(g: Geometry, x: nat, y: nat, z: nat, n: nat)
    requires Claimable(g) && x + n <= g.width && y < z
    ensures Offset(g, x, y) + n * BytesPerPixel(g) <= Offset(g, x, z)
  {
    var b := BytesPerPixel(g);
    MulLe(n, g.width, b);
    MulLe(y + 1, z, g.pitch);
    MulStep(y, g.pitch);
  }

  /** The rows of a rectangle on the screen lie apart, inside its memory. */
  lemma RectangleFits(m: Bytes, g: Geometry, x: nat, top: nat, rows: seq<Bytes>, n: nat)
    requires Claimable(g) && |m| == Mapped(g) && x + n <= g.width && top + |rows| <= g.height
    requires forall k :: 0 <= k < |rows| ==> |rows[k]| == n * BytesPerPixel(g)
    ensures RowsFit(m, RowStarts(g, x, top, |rows|), rows) && Apart(RowStarts(g, x, top, |rows|), rows)
  {
    forall k | 0 <= k < |rows| ensures RowStarts(g, x, top, |rows|)[k] + |rows[k]| <= |m| {
      RowFits(m, g, x, top + k, rows[k], n);
    }
    forall i, j | 0 <= i < j < |rows|
      ensures RowStarts(g, x, top, |rows|)[i] + |rows[i]| <= RowStarts(g, x, top, |rows|)[j]
    {
      RowsAreApart(g, x, top + i, top + j, n);
    }
  }

  // -------------------------------------------------------------- whole pixels

  lemma PackedFitsPixel(color: Rgb, g: Geometry)
    requires Claimable(g)
    ensures PackColor(color, g.layout) < Pow256(BytesPerPixel(g))
  {
    PackedFits(color, g.layout);
    BytesArePow2(BytesPerPixel(g));
    PowGrows(g.layout.bitsPerPixel, 8 * BytesPerPixel(g));
  }

  /** The bytes of a pixel of this colour. */
  function Cell(g: Geometry, color: Rgb): (bytes: Bytes)
    ensures |bytes| == BytesPerPixel(g)
  {
    ToBytes(PackColor(color, g.layout), BytesPerPixel(g))
  }

  /** The pixel stored at an offset. */
  function PixelAt(m: Bytes, at: nat, size: nat): nat
    requires at + size <= |m|
  {
    FromBytes(m[at..at + size])
  }

  /** A stored pixel reads back, colours and all when channels are wide enough. */
  lemma StoredColorReadsBack(m: Bytes, at: nat, color: Rgb, g: Geometry)
    requires Claimable(g) && at + BytesPerPixel(g) <= |m|
    requires g.layout.red.size >= 8 && g.layout.green.size >= 8 && g.layout.blue.size >= 8
    ensures
      var size := BytesPerPixel(g);
      ReadColor(PixelAt(Overlay(m, at, Cell(g, color)), at, size), g.layout) == color
  {
    var size, packed := BytesPerPixel(g), PackColor(color, g.layout);
    assert Overlay(m, at, ToBytes(packed, size))[at..at + size] == ToBytes(packed, size);
    PackedFitsPixel(color, g);
    FromTo(packed, size);
    WideColorsAreExact(color, g.layout);
  }

  // ------------------------------------------------------ rows of a rectangle

  /** `n` copies of a pixel. */
  function Copies(cell: Bytes, n: nat): (cells: seq<Bytes>)
    ensures |cells| == n && forall i :: 0 <= i < n ==> cells[i] == cell
  {
    seq(n, _ => cell)
  }

  function Repeat(cell: Bytes, n: nat): Bytes { Join(Copies(cell, n)) }

  lemma RepeatNext(cell: Bytes, n: nat)
    ensures Repeat(cell, n + 1) == Repeat(cell, n) + cell
  {
    JoinSnoc(Copies(cell, n), cell);
    assert Copies(cell, n + 1) == Copies(cell, n) + [cell];
  }

  lemma RepeatLength(cell: Bytes, n: nat)
    ensures |Repeat(cell, n)| == n * |cell|
  {
    JoinEqual(Copies(cell, n), |cell|);
  }

  function NativeLayout(l: Layout): bool
  {
    l == Layout(32, Channel(8, 16), Channel(8, 8), Channel(8, 0))
  }

  function ColorOf(p: Pixel): Rgb { Rgb(p.red, p.green, p.blue) }

  /** What a surface pixel becomes in the framebuffer: its own bytes for the native layout,
      its packed colour for any other. */
  function CellOf(g: Geometry, p: Pixel): (bytes: Bytes)
    ensures |bytes| == BytesPerPixel(g)
  {
    if NativeLayout(g.layout) then Raw(p) else Cell(g, ColorOf(p))
  }

  function Cells(g: Geometry, pixels: seq<Pixel>): (cells: seq<Bytes>)
    ensures |cells| == |pixels| && forall i :: 0 <= i < |pixels| ==> cells[i] == CellOf(g, pixels[i])
  {
    seq(|pixels|, i requires 0 <= i < |pixels| => CellOf(g, pixels[i]))
  }

  function RowCells(g: Geometry, pixels: seq<Pixel>): Bytes { Join(Cells(g, pixels)) }

  lemma RowCellsLength(g: Geometry, pixels: seq<Pixel>)
    ensures |RowCells(g, pixels)| == |pixels| * BytesPerPixel(g)
  {
    JoinEqual(Cells(g, pixels), BytesPerPixel(g));
  }

  lemma {:induction false} NativeRowCells(g: Geometry, pixels: seq<Pixel>)
    requires NativeLayout(g.layout)
    ensures RowCells(g, pixels) == RowBytes(pixels)
  {
    if pixels != [] {
      NativeRowCells(g, pixels[1..]);
      assert Cells(g, pixels)[1..] == Cells(g, pixels[1..]);
    }
  }

  /** The same bytes in each of `n` rows. */
  function SameRows(row: Bytes, n: nat): (rows: seq<Bytes>)
    ensures |rows| == n && forall k :: 0 <= k < n ==> rows[k] == row
  {
    seq(n, _ => row)
  }

  // ------------------------------------------------------------ scene regions

  /** The region lies inside the scene. */
  predicate InScene(pixels: seq<Pixel>, sceneWidth: nat, x: nat, y: nat, width: nat, height: nat)
  {
    sceneWidth > 0 && x + width <= sceneWidth && y + height <= |pixels| / sceneWidth
  }

  lemma SceneRowInside(pixels: seq<Pixel>, sceneWidth: nat, x: nat, y: nat, width: nat, height: nat, k: nat)
    requires InScene(pixels, sceneWidth, x, y, width, height) && k < height
    ensures (y + k) * sceneWidth + x + width <= |pixels|
  {
    MulLe(y + k + 1, |pixels| / sceneWidth, sceneWidth);
    MulStep(y + k, sceneWidth);
    assert (|pixels| / sceneWidth) * sceneWidth <= |pixels|;
  }

  /** Row `k` of the region. */
  function SceneSlice(
    pixels: seq<Pixel>, sceneWidth: nat, x: nat, y: nat, width: nat, height: nat, k: nat): (row: seq<Pixel>)
    requires InScene(pixels, sceneWidth, x, y, width, height) && k < height
    ensures |row| == width
  {
    SceneRowInside(pixels, sceneWidth, x, y, width, height, k);
    pixels[(y + k) * sceneWidth + x..(y + k) * sceneWidth + x + width]
  }

  function SceneSlices(
    pixels: seq<Pixel>, sceneWidth: nat, x: nat, y: nat, width: nat, height: nat): (rows: seq<seq<Pixel>>)
    requires InScene(pixels, sceneWidth, x, y, width, height)
    ensures |rows| == height && EqualRows(rows, width)
  {
    seq(height, k requires 0 <= k < height => SceneSlice(pixels, sceneWidth, x, y, width, height, k))
  }

  /** Rows of pixels as the framebuffer should show them. */
  function CellRows(g: Geometry, rows: seq<seq<Pixel>>): (cells: seq<Bytes>)
    ensures |cells| == |rows| && forall k :: 0 <= k < |rows| ==> cells[k] == RowCells(g, rows[k])
  {
    seq(|rows|, k requires 0 <= k < |rows| => RowCells(g, rows[k]))
  }

  predicate EqualRows(rows: seq<seq<Pixel>>, width: nat)
  {
    forall k :: 0 <= k < |rows| ==> |rows[k]| == width
  }

  lemma CellRowsFit(m: Bytes, g: Geometry, x: nat, y: nat, rows: seq<seq<Pixel>>, width: nat)
    requires Claimable(g) && |m| == Mapped(g) && EqualRows(rows, width)
    requires x + width <= g.width && y + |rows| <= g.height
    ensures RowsFit(m, RowStarts(g, x, y, |rows|), CellRows(g, rows))
    ensures Apart(RowStarts(g, x, y, |rows|), CellRows(g, rows))
  {
    var cells := CellRows(g, rows);
    forall k | 0 <= k < |cells| ensures |cells[k]| == width * BytesPerPixel(g) { RowCellsLength(g, rows[k]); }
    RectangleFits(m, g, x, y, cells, width);
  }

  lemma {:induction false} JoinPrefix(cells: seq<Bytes>, c: nat)
    requires c < |cells|
    ensures Join(cells[..c + 1]) == Join(cells[..c]) + cells[c] && |Join(cells[..c + 1])| <= |Join(cells)|
    decreases |cells| - c
  {
    JoinSnoc(cells[..c], cells[c]);
    assert cells[..c + 1] == cells[..c] + [cells[c]];
    if c + 1 == |cells| {
      assert cells[..c + 1] == cells;
    } else {
      JoinPrefix(cells, c + 1);
    }
  }

  class FramebufferWriter {
    const base: nat
    const geometry: Geometry
    const memory: array<u8>

    ghost predicate Valid()
    {
      Claimable(geometry) && memory.Length == Mapped(geometry)
    }

    constructor (base: nat, geometry: Geometry)
      requires Claimable(geometry)
      ensures Valid() && this.base == base && this.geometry == geometry && fresh(memory)
    {
      this.base := base;
      this.geometry := geometry;
      memory := new u8[Mapped(geometry)](_ => 0);
    }

    /** A volatile store of 1, 4, 8 or 16 bytes; its address must be naturally aligned. */
    method Store(at: nat, bytes: Bytes)
      requires |bytes| in {1, 4, 8, 16} && (base + at) % |bytes| == 0 && at + |bytes| <= memory.Length
      modifies memory
      ensures memory[..] == Overlay(old(memory[..]), at, bytes)
    {
      forall i | at <= i < at + |bytes| { memory[i] := bytes[i - at]; }
    }

    /** Stores pixels `x` to `x + n` of a row in one access. */
    method StorePixels(at: nat, row: Bytes, x: nat, n: nat, ghost before: Bytes)
      requires n in {1, 2, 4} && 4 * (x + n) <= |row| && at + |row| <= memory.Length == |before|
      requires (base + at + 4 * x) % (4 * n) == 0 && memory[..] == Overlay(before, at, row[..4 * x])
      modifies memory
      ensures memory[..] == Overlay(before, at, row[..4 * (x + n)])
    {
      var part := row[4 * x..4 * (x + n)];
      OverlayTwice(before, at, row[..4 * x], part);
      assert row[..4 * (x + n)] == row[..4 * x] + part;
      Store(at + 4 * x, part);
    }

    /** Stores one byte after another. */
    method StoreBytes(at: nat, bytes: Bytes)
      requires at + |bytes| <= memory.Length
      modifies memory
      ensures memory[..] == Overlay(old(memory[..]), at, bytes)
    {
      ghost var before := memory[..];
      for k := 0 to |bytes|
        invariant memory[..] == Overlay(before, at, bytes[..k])
      {
        Store(at + k, [bytes[k]]);
        OverlayTwice(before, at, bytes[..k], [bytes[k]]);
        assert bytes[..k + 1] == bytes[..k] + [bytes[k]];
      }
      assert bytes[..|bytes|] == bytes;
    }

    /** Stores the pixels of a row one at a time. */
    method StoreCells(at: nat, cells: seq<Bytes>)
      requires at + |Join(cells)| <= memory.Length
      modifies memory
      ensures memory[..] == Overlay(old(memory[..]), at, Join(cells))
    {
      ghost var before, written := memory[..], [];
      var next := at;
      OverlayNothing(before, at);
      for c := 0 to |cells|
        invariant written == Join(cells[..c]) && next == at + |written| <= memory.Length
        invariant memory[..] == Overlay(before, at, written)
      {
        JoinPrefix(cells, c);
        StoreNext(at, next, cells[c], before, written);
        next, written := next + |cells[c]|, written + cells[c];
      }
      assert cells[..|cells|] == cells;
    }

    /** One more pixel behind those already stored. */
    method StoreNext(at: nat, next: nat, cell: Bytes, ghost before: Bytes, ghost written: Bytes)
      requires next == at + |written| && next + |cell| <= memory.Length == |before|
      requires memory[..] == Overlay(before, at, written)
      modifies memory
      ensures memory[..] == Overlay(before, at, written + cell)
    {
      OverlayTwice(before, at, written, cell);
      StoreCell(next, cell);
    }

    /** The bytes of one pixel, as a single word where that is aligned. */
    method StoreCell(at: nat, cell: Bytes)
      requires at + |cell| <= memory.Length
      modifies memory
      ensures memory[..] == Overlay(old(memory[..]), at, cell)
    {
      if |cell| == 4 && (base + at) % 4 == 0 {
        Store(at, cell);
      } else {
        StoreBytes(at, cell);
      }
    }

    method WriteRawPixel(x: nat, y: nat, packed: u32)
      requires Valid()
      modifies memory
      ensures x >= geometry.width || y >= geometry.height ==> memory[..] == old(memory[..])
      ensures x < geometry.width && y < geometry.height ==>
        Offset(geometry, x, y) + BytesPerPixel(geometry) <= memory.Length
      ensures x < geometry.width && y < geometry.height ==>
        memory[..] == Overlay(old(memory[..]), Offset(geometry, x, y), ToBytes(packed, BytesPerPixel(geometry)))
    {
      if x >= geometry.width || y >= geometry.height { return; }
      var size, at := BytesPerPixel(geometry), Offset(geometry, x, y);
      RunInside(geometry, x, y, 1);
      StoreCell(at, ToBytes(packed, size));
    }

    method ReadRawPixel(x: nat, y: nat) returns (r: Option<nat>)
      requires Valid()
      ensures r.Some? <==> x < geometry.width && y < geometry.height
      ensures r.Some? ==> Offset(geometry, x, y) + BytesPerPixel(geometry) <= memory.Length
      ensures r.Some? ==> r.value == PixelAt(memory[..], Offset(geometry, x, y), BytesPerPixel(geometry))
    {
      if x >= geometry.width || y >= geometry.height { return None; }
      var size, at := BytesPerPixel(geometry), Offset(geometry, x, y);
      RunInside(geometry, x, y, 1);
      var packed: nat := 0;
      for k := 0 to size
        invariant packed == FromBytes(memory[at..at + k])
      {
        FromBytesAppend(memory[at..at + k], memory[at + k]);
        assert memory[at..at + k + 1] == memory[at..at + k] + [memory[at + k]];
        packed := packed + memory[at + k] * Pow256(k);
      }
      assert memory[..][at..at + size] == memory[at..at + size];
      return Some(packed);
    }

    method ReadRgbPixel(x: nat, y: nat) returns (r: Option<Rgb>)
      requires Valid()
      ensures r.Some? <==> x < geometry.width && y < geometry.height
      ensures r.Some? ==> Offset(geometry, x, y) + BytesPerPixel(geometry) <= memory.Length
      ensures r.Some? ==>
        r.value == ReadColor(PixelAt(memory[..], Offset(geometry, x, y), BytesPerPixel(geometry)), geometry.layout)
    {
      var packed := ReadRawPixel(x, y);
      if packed.None? { return None; }
      var l := geometry.layout;
      assert l.red in {l.red, l.green, l.blue} && l.green in {l.red, l.green, l.blue};
      assert l.blue in {l.red, l.green, l.blue};
      return Some(ReadColor(packed.value, l));
    }

    method WriteRgbPixel(x: nat, y: nat, color: Rgb) returns (ok: bool)
      requires Valid()
      modifies memory
      ensures ok <==> x < geometry.width && y < geometry.height
      ensures !ok ==> memory[..] == old(memory[..])
      ensures ok ==> Offset(geometry, x, y) + BytesPerPixel(geometry) <= memory.Length
      ensures ok ==>
        memory[..] == Overlay(old(memory[..]), Offset(geometry, x, y), Cell(geometry, color))
    {
      if x >= geometry.width || y >= geometry.height { return false; }
      PackedFits(color, geometry.layout);
      PowGrows(geometry.layout.bitsPerPixel, 32);
      Pow32();
      WriteRawPixel(x, y, PackColor(color, geometry.layout));
      return true;
    }

    /** Stores `n` pixels at a time while that many are left, from an aligned place on. */
    method StoreGroups(at: nat, row: Bytes, pixels: nat, start: nat, n: nat, ghost before: Bytes) returns (x: nat)
      requires n in {2, 4} && |row| == 4 * pixels && start <= pixels && at + |row| <= memory.Length == |before|
      requires start < pixels ==> (base + at + 4 * start) % (4 * n) == 0
      requires memory[..] == Overlay(before, at, row[..4 * start])
      modifies memory
      ensures start <= x <= pixels < x + n && memory[..] == Overlay(before, at, row[..4 * x])
      ensures x < pixels ==> (base + at + 4 * x) % (4 * n) == 0
    {
      x := start;
      while x + n <= pixels
        invariant start <= x <= pixels && memory[..] == Overlay(before, at, row[..4 * x])
        invariant x < pixels ==> (base + at + 4 * x) % (4 * n) == 0
      {
        StorePixels(at, row, x, n, before);
        NextGroup(base + at + 4 * x, n);
        x := x + n;
      }
    }

    /** Single pixels up to a 16-byte boundary. */
    method StoreToBoundary(at: nat, row: Bytes, pixels: nat, ghost before: Bytes) returns (x: nat)
      requires (base + at) % 4 == 0 && |row| == 4 * pixels && at + |row| <= memory.Length && memory[..] == before
      modifies memory
      ensures x <= pixels && memory[..] == Overlay(before, at, row[..4 * x])
      ensures x < pixels ==> (base + at + 4 * x) % 16 == 0
    {
      x := 0;
      OverlayNothing(before, at);
      while x < pixels && (base + at + 4 * x) % 16 != 0
        invariant x <= pixels && memory[..] == Overlay(before, at, row[..4 * x])
      {
        NextPixel(base + at, x);
        StorePixels(at, row, x, 1, before);
        x := x + 1;
      }
    }

    /** The rest of a row from a pair boundary on. */
    method StorePairs(at: nat, row: Bytes, pixels: nat, start: nat, ghost before: Bytes)
      requires (base + at) % 4 == 0 && |row| == 4 * pixels && start <= pixels && at + |row| <= memory.Length == |before|
      requires start < pixels ==> (base + at + 4 * start) % 8 == 0
      requires memory[..] == Overlay(before, at, row[..4 * start])
      modifies memory
      ensures memory[..] == Overlay(before, at, row)
    {
      var x := StoreGroups(at, row, pixels, start, 2, before);
      if x < pixels {
        NextPixel(base + at, x);
        StorePixels(at, row, x, 1, before);
        x := x + 1;
      }
      assert row[..4 * x] == row;
    }

    /** Single pixels up to a 16-byte boundary, then four, two and one at a time; a row that
        is not even word-aligned goes out byte by byte. */
    method WriteNativeRow(at: nat, row: Bytes, pixels: nat)
      requires |row| == 4 * pixels && at + |row| <= memory.Length
      modifies memory
      ensures memory[..] == Overlay(old(memory[..]), at, row)
    {
      if (base + at) % 4 != 0 {
        StoreBytes(at, row);
      } else {
        ghost var before := memory[..];
        var x := StoreToBoundary(at, row, pixels, before);
        x := StoreGroups(at, row, pixels, x, 4, before);
        if x < pixels { SmallerGroup(base + at + 4 * x); }
        StorePairs(at, row, pixels, x, before);
      }
    }

    /** One row of pixels: wide stores for the native layout, else pixel by pixel. */
    method WriteRow(at: nat, source: seq<Pixel>)
      requires at + |RowCells(geometry, source)| <= memory.Length
      modifies memory
      ensures memory[..] == Overlay(old(memory[..]), at, RowCells(geometry, source))
    {
      if NativeLayout(geometry.layout) {
        NativeRowCells(geometry, source);
        WriteNativeRow(at, RowBytes(source), |source|);
      } else {
        StoreCells(at, Cells(geometry, source));
      }
    }

    /** Rows at the given offsets. */
    method WriteRows(starts: seq<nat>, rows: seq<seq<Pixel>>)
      requires RowsFit(memory[..], starts, CellRows(geometry, rows))
      modifies memory
      ensures memory[..] == PaintRows(old(memory[..]), starts, CellRows(geometry, rows))
    {
      ghost var before, cells := memory[..], CellRows(geometry, rows);
      for k := 0 to |rows|
        invariant RowsFit(before, starts, cells[..k])
        invariant memory[..] == PaintRows(before, starts, cells[..k])
      {
        PaintNextRow(before, starts, cells, k);
        WriteRow(starts[k], rows[k]);
      }
      assert cells[..|rows|] == cells;
    }

    /** Publishes a region of a scene at the same place on the screen. */
    method WriteSceneRegion(pixels: seq<Pixel>, sceneWidth: nat, x: nat, y: nat, width: nat, height: nat)
      returns (ok: bool)
      requires Valid()
      modifies memory
      ensures ok <==>
        InScene(pixels, sceneWidth, x, y, width, height) && x + width <= geometry.width && y + height <= geometry.height
      ensures !ok ==> memory[..] == old(memory[..])
      ensures ok ==>
        var cells := CellRows(geometry, SceneSlices(pixels, sceneWidth, x, y, width, height));
        RowsFit(old(memory[..]), RowStarts(geometry, x, y, height), cells) &&
        memory[..] == PaintRows(old(memory[..]), RowStarts(geometry, x, y, height), cells)
    {
      if sceneWidth == 0 || x + width > sceneWidth || y + height > |pixels| / sceneWidth { return false; }
      if x + width > geometry.width || y + height > geometry.height { return false; }
      var rows := SceneSlices(pixels, sceneWidth, x, y, width, height);
      CellRowsFit(memory[..], geometry, x, y, rows, width);
      WriteRows(RowStarts(geometry, x, y, height), rows);
      return true;
    }

    /** `n` copies of a pixel, two to a store where that is aligned. */
    method FillRow(at: nat, cell: Bytes, n: nat)
      requires |cell| in {3, 4} && at + n * |cell| <= memory.Length
      modifies memory
      ensures |Repeat(cell, n)| == n * |cell| && memory[..] == Overlay(old(memory[..]), at, Repeat(cell, n))
    {
      RepeatLength(cell, n);
      if |cell| == 4 && (base + at) % 4 == 0 {
        FillAligned(at, cell, n);
      } else {
        StoreCells(at, Copies(cell, n));
      }
    }

    /** The next one or two copies in one store. */
    method StoreCopies(at: nat, cell: Bytes, written: nat, count: nat, ghost before: Bytes)
      requires |cell| == 4 && count in {1, 2} && at + 4 * (written + count) <= memory.Length == |before|
      requires (base + at + 4 * written) % (4 * count) == 0
      requires |Repeat(cell, written)| == 4 * written && memory[..] == Overlay(before, at, Repeat(cell, written))
      modifies memory
      ensures |Repeat(cell, written + count)| == 4 * (written + count)
      ensures memory[..] == Overlay(before, at, Repeat(cell, written + count))
    {
      RepeatLength(cell, written + count);
      RepeatNext(cell, written);
      RepeatNext(cell, written + 1);
      var bytes := if count == 1 then cell else cell + cell;
      assert Repeat(cell, written + count) == Repeat(cell, written) + bytes;
      OverlayTwice(before, at, Repeat(cell, written), bytes);
      Store(at + 4 * written, bytes);
    }

    method FillAligned(at: nat, cell: Bytes, n: nat)
      requires |cell| == 4 && (base + at) % 4 == 0 && at + 4 * n <= memory.Length
      modifies memory
      ensures |Repeat(cell, n)| == 4 * n && memory[..] == Overlay(old(memory[..]), at, Repeat(cell, n))
    {
      ghost var before := memory[..];
      OverlayNothing(before, at);
      RepeatLength(cell, n);
      if (base + at) % 8 != 0 && n != 0 {
        StoreCopies(at, cell, 0, 1, before);
        AfterFirst(base + at);
        FillPairs(at, cell, 1, n, before);
      } else {
        FillPairs(at, cell, 0, n, before);
      }
    }

    /** The rest of a row of copies from a pair boundary on. */
    method FillPairs(at: nat, cell: Bytes, start: nat, n: nat, ghost before: Bytes)
      requires |cell| == 4 && (base + at) % 4 == 0 && at + 4 * n <= memory.Length == |before| && start <= n
      requires start < n ==> (base + at + 4 * start) % 8 == 0
      requires |Repeat(cell, start)| == 4 * start && memory[..] == Overlay(before, at, Repeat(cell, start))
      modifies memory
      ensures |Repeat(cell, n)| == 4 * n && memory[..] == Overlay(before, at, Repeat(cell, n))
    {
      var written := start;
      while written + 1 < n
        invariant start <= written <= n && |Repeat(cell, written)| == 4 * written
        invariant memory[..] == Overlay(before, at, Repeat(cell, written))
        invariant written < n ==> (base + at + 4 * written) % 8 == 0
      {
        StoreCopies(at, cell, written, 2, before);
        NextGroup(base + at + 4 * written, 2);
        written := written + 2;
      }
      if written < n {
        NextPixel(base + at, written);
        StoreCopies(at, cell, written, 1, before);
      }
    }

    /** Fills a rectangle with one packed colour. */
    method FillPackedRect(left: nat, top: nat, right: nat, bottom: nat, packed: u32)
      requires Valid() && left <= right <= geometry.width && top <= bottom <= geometry.height
      modifies memory
      ensures
        var rows := SameRows(Repeat(ToBytes(packed, BytesPerPixel(geometry)), right - left), bottom - top);
        RowsFit(old(memory[..]), RowStarts(geometry, left, top, bottom - top), rows) &&
        memory[..] == PaintRows(old(memory[..]), RowStarts(geometry, left, top, bottom - top), rows)
    {
      var cell, n := ToBytes(packed, BytesPerPixel(geometry)), right - left;
      RepeatLength(cell, n);
      RectangleFits(memory[..], geometry, left, top, SameRows(Repeat(cell, n), bottom - top), n);
      FillRows(RowStarts(geometry, left, top, bottom - top), cell, n);
    }

    method FillRows(starts: seq<nat>, cell: Bytes, n: nat)
      requires |cell| in {3, 4} && RowsFit(memory[..], starts, SameRows(Repeat(cell, n), |starts|))
      modifies memory
      ensures memory[..] == PaintRows(old(memory[..]), starts, SameRows(Repeat(cell, n), |starts|))
    {
      ghost var before, rows := memory[..], SameRows(Repeat(cell, n), |starts|);
      RepeatLength(cell, n);
      for k := 0 to |starts|
        invariant RowsFit(before, starts, rows[..k])
        invariant memory[..] == PaintRows(before, starts, rows[..k])
      {
        PaintNextRow(before, starts, rows, k);
        FillRow(starts[k], cell, n);
      }
      assert rows[..|starts|] == rows;
    }
  }
}
