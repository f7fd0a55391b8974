/** What `process_frame_with_color` promises about its output: the layout of
    the grid, the contents of each cell, the means that never need their
    clamp, and the blocks that are dropped. */
module ColorFrameProps {
  import opened Image
  import opened Ramp
  import opened ColorFrame

  lemma BlocksRect(rgba: seq<Byte>, width: nat, height: nat, bs: nat)
    requires bs > 0
    ensures |Blocks(rgba, width, height, bs)| == height / bs
    ensures AllLength(Blocks(rgba, width, height, bs), width / bs)
  {}

  /** Every glyph row of a grid gw blocks wide holds gw glyphs and every colour
      row `gw * 3` bytes. */
  lemma GridRows(grid: seq<seq<Sums>>, ramp: seq<Byte>, gw: nat)
    requires |ramp| >= 1 && AllLength(grid, gw)
    ensures AllLength(GridChars(grid, ramp), gw) && AllLength(GridColors(grid), gw * 3)
  {
    forall y | 0 <= y < |grid|
      ensures |Flatten(RowTriples(grid[y]))| == gw * 3
    {
      FlattenLength(RowTriples(grid[y]), 3);
    }
  }

  /** The frame has one glyph per block of the `width / bs` by `height / bs`
      grid and three colour bytes per glyph. */
  lemma FrameShape(rgba: seq<Byte>, width: nat, height: nat, bs: nat, useDetailed: bool)
    requires bs > 0
    ensures var f := Frame(rgba, width, height, bs, useDetailed);
            |f.chars| == (height / bs) * (width / bs) && |f.colors| == 3 * |f.chars|
  {
    var grid, ramp, gw := Blocks(rgba, width, height, bs), SelectRamp(useDetailed), width / bs;
    BlocksRect(rgba, width, height, bs);
    GridRows(grid, ramp, gw);
    FlattenLength(GridChars(grid, ramp), gw);
    FlattenLength(GridColors(grid), gw * 3);
    CellOffset(0, |grid|, gw);
  }

  /** Cell k of frame f is glyph ch in colour (r, g, b): glyph k and the
      three colour bytes from `3 * k`. */
  predicate CellIs(f: ProcessedFrame, k: int, ch: Byte, r: Byte, g: Byte, b: Byte)
  {
    0 <= k < |f.chars| && 3 * k + 2 < |f.colors|
    && f.chars[k] == ch && f.colors[3 * k] == r && f.colors[3 * k + 1] == g && f.colors[3 * k + 2] == b
  }

  /** Cell k of frame f shows the block with sums s: the glyph chosen from s
      in the block's mean colour. */
  predicate CellShows(f: ProcessedFrame, k: int, s: Sums, ramp: seq<Byte>)
    requires |ramp| >= 1
  {
    CellIs(f, k, CellChar(s, ramp), CellColor(s, 0), CellColor(s, 1), CellColor(s, 2))
  }

  /** Block (x, y) is cell `y * gw + x`: its glyph is chosen from the sums of
      that block, and its colour is the three bytes from `3 * (y * gw + x)`. */
  lemma FrameAt(rgba: seq<Byte>, width: nat, height: nat, bs: nat, useDetailed: bool, x: nat, y: nat)
    requires bs > 0 && x < width / bs && y < height / bs
    ensures CellShows(Frame(rgba, width, height, bs, useDetailed), y * (width / bs) + x,
                      BlockSums(rgba, width, height, bs, x, y), SelectRamp(useDetailed))
  {
    var grid := Blocks(rgba, width, height, bs);
    BlocksRect(rgba, width, height, bs);
    GridCellShows(grid, SelectRamp(useDetailed), width / bs, x, y);
    assert grid[y][x] == BlockSums(rgba, width, height, bs, x, y);
  }

  /** Cell `y * gw + x` of a grid's layout shows block x of row y. */
  lemma GridCellShows(grid: seq<seq<Sums>>, ramp: seq<Byte>, gw: nat, x: nat, y: nat)
    requires |ramp| >= 1 && AllLength(grid, gw) && x < gw && y < |grid|
    ensures CellShows(ProcessedFrame(Flatten(GridChars(grid, ramp)), Flatten(GridColors(grid))), y * gw + x, grid[y][x], ramp)
  {
    GridCharAt(grid, ramp, gw, x, y);
    GridColorAt(grid, ramp, gw, x, y, 0);
    GridColorAt(grid, ramp, gw, x, y, 1);
    GridColorAt(grid, ramp, gw, x, y, 2);
    MulLe(0, y, gw);
  }

  /** Glyph `y * gw + x` of a grid's layout is that of block x of row y. */
  lemma GridCharAt(grid: seq<seq<Sums>>, ramp: seq<Byte>, gw: nat, x: nat, y: nat)
    requires |ramp| >= 1 && AllLength(grid, gw) && x < gw && y < |grid|
    ensures var chars := Flatten(GridChars(grid, ramp));
            y * gw + x < |chars| && chars[y * gw + x] == CellChar(grid[y][x], ramp)
  {
    GridRows(grid, ramp, gw);
    FlattenAt(GridChars(grid, ramp), gw, y, x);
  }

  /** Colour byte `3 * (y * gw + x) + c` of a grid's layout is channel c of
      block x of row y. */
  lemma GridColorAt(grid: seq<seq<Sums>>, ramp: seq<Byte>, gw: nat, x: nat, y: nat, c: nat)
    requires |ramp| >= 1 && AllLength(grid, gw) && x < gw && y < |grid| && c < 3
    ensures var colors := Flatten(GridColors(grid));
            3 * (y * gw + x) + c < |colors| && colors[3 * (y * gw + x) + c] == CellColor(grid[y][x], c)
  {
    GridRows(grid, ramp, gw);
    var triples := RowTriples(grid[y]);
    assert AllLength(triples, 3);
    FlattenAt(triples, 3, x, c);
    CellOffset(x, y, gw);
    FlattenAt(GridColors(grid), gw * 3, y, 3 * x + c);
  }

  /** Inside the grid the `.min(width)` and `.min(height)` of the block bounds
      never clip: every block is a full `bs` by `bs` square. */
  lemma BlockIsFull(rgba: seq<Byte>, width: nat, height: nat, bs: nat, x: nat, y: nat)
    requires bs > 0 && x < width / bs && y < height / bs
    ensures BlockSums(rgba, width, height, bs, x, y) == RegionSums(rgba, width, y * bs, y * bs + bs, x * bs, x * bs + bs)
  {
    FullBlockFits(x, width, bs);
    FullBlockFits(y, height, bs);
  }

  /** No channel sum exceeds 255 per counted pixel. */
  predicate Bounded(s: Sums)
  {
    s.gray <= 255 * s.count && s.r <= 255 * s.count && s.g <= 255 * s.count && s.b <= 255 * s.count
  }

  lemma {:induction false} RowBounded(rgba: seq<Byte>, rowStart: nat, x0: nat, x1: nat)
    ensures Bounded(RowSums(rgba, rowStart, x0, x1))
  {
    if x1 > x0 {
      RowBounded(rgba, rowStart, x0, x1 - 1);
    }
  }

  lemma {:induction false} RegionBounded(rgba: seq<Byte>, width: nat, y0: nat, y1: nat, x0: nat, x1: nat)
    ensures Bounded(RegionSums(rgba, width, y0, y1, x0, x1))
  {
    if y1 > y0 {
      RegionBounded(rgba, width, y0, y1 - 1, x0, x1);
      RowBounded(rgba, RowStart(width, y1 - 1), x0, x1);
    }
  }

  /** Each mean of a block is the exact truncated quotient `sum / count`. */
  lemma BlockMeansExact(rgba: seq<Byte>, width: nat, height: nat, bs: nat, x: nat, y: nat)
    requires bs > 0
    ensures var s := BlockSums(rgba, width, height, bs, x, y);
            s.count > 0 ==>
              Mean(s.gray, s.count) == s.gray / s.count && Mean(s.r, s.count) == s.r / s.count
              && Mean(s.g, s.count) == s.g / s.count && Mean(s.b, s.count) == s.b / s.count
  {
    var s := BlockSums(rgba, width, height, bs, x, y);
    var x0, y0 := BlockStart(x, bs), BlockStart(y, bs);
    RegionBounded(rgba, width, y0, Min(y0 + bs, height), x0, Min(x0 + bs, width));
  }

  /** A row whose pixels all lie in the buffer counts every one of them. */
  lemma {:induction false} RowCount(rgba: seq<Byte>, rowStart: nat, x0: nat, x1: nat)
    requires x0 <= x1 && rowStart + x1 * 4 <= |rgba|
    ensures RowSums(rgba, rowStart, x0, x1).count == x1 - x0
  {
    if x1 > x0 {
      RowCount(rgba, rowStart, x0, x1 - 1);
    }
  }

  /** One more full row of n pixels adds n to the count of the rows above it. */
  lemma CountStep(p: nat, r: nat, y0: nat, y1: nat, n: nat)
    requires y1 > y0 && p == (y1 - 1 - y0) * n && r == n
    ensures p + r == (y1 - y0) * n
  {
    MulSucc(y1 - 1 - y0, n);
  }

  lemma {:induction false} RegionCount(rgba: seq<Byte>, width: nat, height: nat, y0: nat, y1: nat, x0: nat, x1: nat)
    requires y0 <= y1 <= height && x0 <= x1 <= width && |rgba| >= width * height * 4
    ensures RegionSums(rgba, width, y0, y1, x0, x1).count == (y1 - y0) * (x1 - x0)
  {
    if y1 > y0 {
      var prev, row := RegionSums(rgba, width, y0, y1 - 1, x0, x1), RowSums(rgba, RowStart(width, y1 - 1), x0, x1);
      RegionCount(rgba, width, height, y0, y1 - 1, x0, x1);
      RowInBuffer(width, height, y1 - 1, x1);
      RowCount(rgba, RowStart(width, y1 - 1), x0, x1);
      assert RegionSums(rgba, width, y0, y1, x0, x1).count == prev.count + row.count;
      CountStep(prev.count, row.count, y0, y1, x1 - x0);
    }
  }

  /** With a complete `width * height * 4` buffer every block counts all of
      its `bs * bs` pixels. */
  lemma FullBufferCount(rgba: seq<Byte>, width: nat, height: nat, bs: nat, x: nat, y: nat)
    requires bs > 0 && x < width / bs && y < height / bs && |rgba| >= width * height * 4
    ensures BlockSums(rgba, width, height, bs, x, y).count == bs * bs
  {
    BlockIsFull(rgba, width, height, bs, x, y);
    FullBlockFits(x, width, bs);
    FullBlockFits(y, height, bs);
    RegionCount(rgba, width, height, y * bs, y * bs + bs, x * bs, x * bs + bs);
  }

  /** Each sum of a one-colour region is the count times that channel. */
  predicate Scaled(s: Sums, r: Byte, g: Byte, b: Byte)
  {
    s.gray == s.count * Gray(r, g, b) && s.r == s.count * r && s.g == s.count * g && s.b == s.count * b
  }

  /** A pixel of a one-colour buffer adds that colour, or nothing when it is
      past the end. */
  lemma PixelUniform(rgba: seq<Byte>, r: Byte, g: Byte, b: Byte, rowStart: nat, x: nat)
    requires Uniform(rgba, r, g, b) && rowStart % 4 == 0
    ensures PixelSums(rgba, rowStart, x)
            == if rowStart + x * 4 + 3 < |rgba| then Sums(Gray(r, g, b), r, g, b, 1) else NoSums
  {
    DivModUnique(rowStart + x * 4, 4, rowStart / 4 + x, 0);
  }

  lemma ScaledPlus(s: Sums, t: Sums, r: Byte, g: Byte, b: Byte)
    requires Scaled(s, r, g, b) && Scaled(t, r, g, b)
    ensures Scaled(Plus(s, t), r, g, b)
  {
    MulAdd(s.count, t.count, Gray(r, g, b));
    MulAdd(s.count, t.count, r);
    MulAdd(s.count, t.count, g);
    MulAdd(s.count, t.count, b);
  }

  lemma {:induction false} RowUniform(rgba: seq<Byte>, r: Byte, g: Byte, b: Byte, rowStart: nat, x0: nat, x1: nat)
    requires Uniform(rgba, r, g, b) && rowStart % 4 == 0
    ensures Scaled(RowSums(rgba, rowStart, x0, x1), r, g, b)
  {
    if x1 > x0 {
      RowUniform(rgba, r, g, b, rowStart, x0, x1 - 1);
      PixelUniform(rgba, r, g, b, rowStart, x1 - 1);
      ScaledPlus(RowSums(rgba, rowStart, x0, x1 - 1), PixelSums(rgba, rowStart, x1 - 1), r, g, b);
    }
  }

  lemma {:induction false} RegionUniform(rgba: seq<Byte>, r: Byte, g: Byte, b: Byte, width: nat, y0: nat, y1: nat, x0: nat, x1: nat)
    requires Uniform(rgba, r, g, b)
    ensures Scaled(RegionSums(rgba, width, y0, y1, x0, x1), r, g, b)
  {
    if y1 > y0 {
      RegionUniform(rgba, r, g, b, width, y0, y1 - 1, x0, x1);
      RowStartAligned(width, y1 - 1);
      RowUniform(rgba, r, g, b, RowStart(width, y1 - 1), x0, x1);
      ScaledPlus(RegionSums(rgba, width, y0, y1 - 1, x0, x1), RowSums(rgba, RowStart(width, y1 - 1), x0, x1), r, g, b);
    }
  }

  lemma MeanScaled(c: nat, v: Byte)
    requires c > 0
    ensures Mean(c * v, c) == v
  {
    DivModUnique(c * v, c, v, 0);
  }

  /** In a one-colour image a block with pixels shows the glyph of that
      colour's gray and the colour itself; a block with none is ' ' on black. */
  lemma UniformCell(rgba: seq<Byte>, r: Byte, g: Byte, b: Byte, width: nat, height: nat, bs: nat, ramp: seq<Byte>, x: nat, y: nat)
    requires Uniform(rgba, r, g, b) && bs > 0 && |ramp| >= 1
    ensures var s := BlockSums(rgba, width, height, bs, x, y);
            if s.count > 0 then CellChar(s, ramp) == Glyph(Gray(r, g, b), ramp) && CellColors(s) == [r, g, b]
            else CellChar(s, ramp) == Space && CellColors(s) == [0, 0, 0]
  {
    var s := BlockSums(rgba, width, height, bs, x, y);
    var x0, y0 := BlockStart(x, bs), BlockStart(y, bs);
    RegionUniform(rgba, r, g, b, width, y0, Min(y0 + bs, height), x0, Min(x0 + bs, width));
    if s.count > 0 {
      MeanScaled(s.count, Gray(r, g, b));
      MeanScaled(s.count, r);
      MeanScaled(s.count, g);
      MeanScaled(s.count, b);
    }
  }

  /** A complete one-colour frame: every cell is the glyph of the colour's gray
      and carries the colour itself. */
  lemma UniformFrame(rgba: seq<Byte>, r: Byte, g: Byte, b: Byte, width: nat, height: nat, bs: nat, useDetailed: bool, x: nat, y: nat)
    requires Uniform(rgba, r, g, b) && |rgba| >= width * height * 4
    requires bs > 0 && x < width / bs && y < height / bs
    ensures CellIs(Frame(rgba, width, height, bs, useDetailed), y * (width / bs) + x,
                   Glyph(Gray(r, g, b), SelectRamp(useDetailed)), r, g, b)
  {
    FrameAt(rgba, width, height, bs, useDetailed, x, y);
    FullBufferCount(rgba, width, height, bs, x, y);
    MulAtLeast(bs, bs);
    UniformCell(rgba, r, g, b, width, height, bs, SelectRamp(useDetailed), x, y);
  }

  /** A black image, whatever its length, renders as spaces on black. */
  lemma BlackFrame(rgba: seq<Byte>, width: nat, height: nat, bs: nat, useDetailed: bool, x: nat, y: nat)
    requires Uniform(rgba, 0, 0, 0)
    requires bs > 0 && x < width / bs && y < height / bs
    ensures CellIs(Frame(rgba, width, height, bs, useDetailed), y * (width / bs) + x, Space, 0, 0, 0)
  {
    FrameAt(rgba, width, height, bs, useDetailed, x, y);
    UniformCell(rgba, 0, 0, 0, width, height, bs, SelectRamp(useDetailed), x, y);
    GlyphEnds(useDetailed);
  }

  /** A complete white image renders as the densest glyph of the ramp. */
  lemma WhiteFrame(rgba: seq<Byte>, width: nat, height: nat, bs: nat, useDetailed: bool, x: nat, y: nat)
    requires Uniform(rgba, 255, 255, 255) && |rgba| >= width * height * 4
    requires bs > 0 && x < width / bs && y < height / bs
    ensures CellIs(Frame(rgba, width, height, bs, useDetailed), y * (width / bs) + x,
                   if useDetailed then Dollar else At, 255, 255, 255)
  {
    UniformFrame(rgba, 255, 255, 255, width, height, bs, useDetailed, x, y);
    GlyphEnds(useDetailed);
  }

  /** Two buffers agree on the pixel at `rowStart + x * 4`: both hold it or
      neither does, and it has the same R, G and B in both. */
  predicate SamePixel(a: seq<Byte>, b: seq<Byte>, rowStart: nat, x: nat)
  {
    var idx := rowStart + x * 4;
    (idx + 3 < |a| <==> idx + 3 < |b|)
    && (idx + 3 < |a| ==> a[idx] == b[idx] && a[idx + 1] == b[idx + 1] && a[idx + 2] == b[idx + 2])
  }

  lemma {:induction false} RowLocal(a: seq<Byte>, b: seq<Byte>, rowStart: nat, x0: nat, x1: nat)
    requires forall x :: x0 <= x < x1 ==> SamePixel(a, b, rowStart, x)
    ensures RowSums(a, rowStart, x0, x1) == RowSums(b, rowStart, x0, x1)
  {
    if x1 > x0 {
      RowLocal(a, b, rowStart, x0, x1 - 1);
      assert SamePixel(a, b, rowStart, x1 - 1);
    }
  }

  lemma {:induction false} RegionLocal(a: seq<Byte>, b: seq<Byte>, width: nat, y0: nat, y1: nat, x0: nat, x1: nat)
    requires forall y: nat, x: nat :: y0 <= y < y1 && x0 <= x < x1 ==> SamePixel(a, b, RowStart(width, y), x)
    ensures RegionSums(a, width, y0, y1, x0, x1) == RegionSums(b, width, y0, y1, x0, x1)
  {
    if y1 > y0 {
      RegionLocal(a, b, width, y0, y1 - 1, x0, x1);
      RowLocal(a, b, RowStart(width, y1 - 1), x0, x1);
    }
  }

  /** Partial blocks are dropped: the frame depends only on the pixels of the
      `(width / bs) * bs` by `(height / bs) * bs` area the full blocks cover. */
  lemma FrameLocal(a: seq<Byte>, b: seq<Byte>, width: nat, height: nat, bs: nat, useDetailed: bool)
    requires bs > 0
    requires forall y: nat, x: nat :: y < (height / bs) * bs && x < (width / bs) * bs ==> SamePixel(a, b, RowStart(width, y), x)
    ensures Frame(a, width, height, bs, useDetailed) == Frame(b, width, height, bs, useDetailed)
  {
    var gridA, gridB := Blocks(a, width, height, bs), Blocks(b, width, height, bs);
    forall gy | 0 <= gy < |gridA|
      ensures gridA[gy] == gridB[gy]
    {
      forall gx | 0 <= gx < |gridA[gy]|
        ensures gridA[gy][gx] == gridB[gy][gx]
      {
        BlockLocal(a, b, width, height, bs, gx, gy);
      }
    }
    assert gridA == gridB;
  }

  lemma BlockLocal(a: seq<Byte>, b: seq<Byte>, width: nat, height: nat, bs: nat, gx: nat, gy: nat)
    requires bs > 0 && gx < width / bs && gy < height / bs
    requires forall y: nat, x: nat :: y < (height / bs) * bs && x < (width / bs) * bs ==> SamePixel(a, b, RowStart(width, y), x)
    ensures BlockSums(a, width, height, bs, gx, gy) == BlockSums(b, width, height, bs, gx, gy)
  {
    BlockIsFull(a, width, height, bs, gx, gy);
    BlockIsFull(b, width, height, bs, gx, gy);
    FullBlockInArea(gx, width, bs);
    FullBlockInArea(gy, height, bs);
    AreaLocal(a, b, width, gy * bs, gy * bs + bs, gx * bs, gx * bs + bs, (height / bs) * bs, (width / bs) * bs);
  }

  /** Block i of the `n / bs` full ones ends inside the covered `(n / bs) * bs`. */
  lemma FullBlockInArea(i: nat, n: nat, bs: nat)
    requires bs > 0 && i < n / bs
    ensures i * bs + bs <= (n / bs) * bs
  {
    MulLe(i + 1, n / bs, bs);
    MulSucc(i, bs);
  }

  /** A region inside an area where two buffers agree has the same sums in both. */
  lemma AreaLocal(a: seq<Byte>, b: seq<Byte>, width: nat, y0: nat, y1: nat, x0: nat, x1: nat, hb: nat, wb: nat)
    requires y1 <= hb && x1 <= wb
    requires forall y: nat, x: nat :: y < hb && x < wb ==> SamePixel(a, b, RowStart(width, y), x)
    ensures RegionSums(a, width, y0, y1, x0, x1) == RegionSums(b, width, y0, y1, x0, x1)
  {
    RegionLocal(a, b, width, y0, y1, x0, x1);
  }
}
