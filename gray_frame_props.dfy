/** What `process_frame` promises: one glyph of `ASCII_CHARS` per block, the
    truncated mean of the block's in-buffer bytes, whose `as u8` never wraps,
    and ' ' for a block with no byte in the buffer. */
module GrayFrameProps {
  import opened Image
  import opened Ramp
  import opened GrayFrame

  lemma GrayRowsShape(gray: seq<Byte>, width: nat, height: nat, bs: nat)
    requires bs > 0
    ensures |GrayRows(gray, width, height, bs)| == height / bs
    ensures AllLength(GrayRows(gray, width, height, bs), width / bs)
  {}

  /** One glyph per block of the `width / bs` by `height / bs` grid. */
  lemma GrayFrameLength(gray: seq<Byte>, width: nat, height: nat, bs: nat)
    requires bs > 0
    ensures |GrayFrameOf(gray, width, height, bs)| == (height / bs) * (width / bs)
  {
    GrayRowsShape(gray, width, height, bs);
    FlattenLength(GrayRows(gray, width, height, bs), width / bs);
  }

  /** Glyph `y * gw + x` is the glyph of the mean of block (x, y). */
  lemma GrayFrameAt(gray: seq<Byte>, width: nat, height: nat, bs: nat, x: nat, y: nat)
    requires bs > 0 && x < width / bs && y < height / bs
    ensures var f := GrayFrameOf(gray, width, height, bs);
            y * (width / bs) + x < |f|
            && f[y * (width / bs) + x] == CompactGlyph(Average(BlockTally(gray, width, height, bs, x, y)))
  {
    GrayRowsShape(gray, width, height, bs);
    FlattenAt(GrayRows(gray, width, height, bs), width / bs, y, x);
  }

  /** Every glyph of the result is one of `ASCII_CHARS`. */
  lemma GrayFrameInRamp(gray: seq<Byte>, width: nat, height: nat, bs: nat)
    requires bs > 0
    ensures forall c :: c in GrayFrameOf(gray, width, height, bs) ==> c in AsciiChars
  {
    var rows := GrayRows(gray, width, height, bs);
    forall i, j | 0 <= i < |rows| && 0 <= j < |rows[i]|
      ensures rows[i][j] in AsciiChars
    {
    }
    FlattenIn(rows, set c | c in AsciiChars);
  }


  /** No tally exceeds 255 per counted byte. */
  predicate Bounded(t: Tally)
  {
    t.sum <= 255 * t.count
  }

  lemma {:induction false} RowBounded(gray: seq<Byte>, rowStart: nat, x0: nat, x1: nat)
    ensures Bounded(GrayRowTally(gray, rowStart, x0, x1))
  {
    if x1 > x0 {
      RowBounded(gray, rowStart, x0, x1 - 1);
    }
  }

  lemma {:induction false} RegionBounded(gray: seq<Byte>, width: nat, y0: nat, y1: nat, x0: nat, x1: nat)
    ensures Bounded(RegionTally(gray, width, y0, y1, x0, x1))
  {
    if y1 > y0 {
      RegionBounded(gray, width, y0, y1 - 1, x0, x1);
      RowBounded(gray, GrayRowStart(width, y1 - 1), x0, x1);
    }
  }

  /** The `as u8` of the mean never wraps: the average is the exact truncated
      quotient. */
  lemma AverageExact(gray: seq<Byte>, width: nat, height: nat, bs: nat, x: nat, y: nat)
    ensures var t := BlockTally(gray, width, height, bs, x, y);
            t.count > 0 ==> Average(t) == t.sum / t.count
  {
    var t := BlockTally(gray, width, height, bs, x, y);
    var x0, y0 := BlockStart(x, bs), BlockStart(y, bs);
    RegionBounded(gray, width, y0, Min(y0 + bs, height), x0, Min(x0 + bs, width));
  }

  /** A tally that counted nothing. */
  predicate Empty(t: Tally)
  {
    t.sum == 0 && t.count == 0
  }

  /** A row that starts at or past the end of the buffer counts nothing. */
  lemma {:induction false} RowPastEnd(gray: seq<Byte>, rowStart: nat, x0: nat, x1: nat)
    requires rowStart >= |gray|
    ensures Empty(GrayRowTally(gray, rowStart, x0, x1))
  {
    if x1 > x0 {
      RowPastEnd(gray, rowStart, x0, x1 - 1);
    }
  }

  lemma {:induction false} RegionPastEnd(gray: seq<Byte>, width: nat, y0: nat, y1: nat, x0: nat, x1: nat)
    requires GrayRowStart(width, y0) >= |gray|
    ensures Empty(RegionTally(gray, width, y0, y1, x0, x1))
  {
    if y1 > y0 {
      RegionPastEnd(gray, width, y0, y1 - 1, x0, x1);
      MulLe(y0, y1 - 1, width);
      RowPastEnd(gray, GrayRowStart(width, y1 - 1), x0, x1);
    }
  }

  /** A block whose first row starts past the end of the buffer has no byte
      in it: its average is 0 and its glyph ' '. */
  lemma BlockPastEndIsBlank(gray: seq<Byte>, width: nat, height: nat, bs: nat, x: nat, y: nat)
    requires GrayRowStart(width, BlockStart(y, bs)) >= |gray|
    ensures var t := BlockTally(gray, width, height, bs, x, y);
            t.count == 0 && Average(t) == 0 && CompactGlyph(Average(t)) == Space
  {
    var x0, y0 := BlockStart(x, bs), BlockStart(y, bs);
    RegionPastEnd(gray, width, y0, Min(y0 + bs, height), x0, Min(x0 + bs, width));
  }

  /** A row whose bytes all lie in the buffer counts every one of them. */
  lemma {:induction false} RowCount(gray: seq<Byte>, rowStart: nat, x0: nat, x1: nat)
    requires x0 <= x1 && rowStart + x1 <= |gray|
    ensures GrayRowTally(gray, rowStart, x0, x1).count == x1 - x0
  {
    if x1 > x0 {
      RowCount(gray, rowStart, x0, x1 - 1);
    }
  }

  lemma {:induction false} RegionCount(gray: seq<Byte>, width: nat, height: nat, y0: nat, y1: nat, x0: nat, x1: nat)
    requires y0 <= y1 <= height && x0 <= x1 <= width && |gray| >= width * height
    ensures RegionTally(gray, width, y0, y1, x0, x1).count == (y1 - y0) * (x1 - x0)
  {
    if y1 > y0 {
      RegionCount(gray, width, height, y0, y1 - 1, x0, x1);
      MulLe(y1, height, width);
      MulSucc(y1 - 1, width);
      RowCount(gray, GrayRowStart(width, y1 - 1), x0, x1);
      MulSucc(y1 - 1 - y0, x1 - x0);
    }
  }

  /** With a complete `width * height` buffer every block counts all of its
      `bs * bs` bytes. */
  lemma FullBufferCount(gray: seq<Byte>, width: nat, height: nat, bs: nat, x: nat, y: nat)
    requires bs > 0 && x < width / bs && y < height / bs && |gray| >= width * height
    ensures BlockTally(gray, width, height, bs, x, y).count == bs * bs
  {
    FullBlockFits(x, width, bs);
    FullBlockFits(y, height, bs);
    RegionCount(gray, width, height, y * bs, y * bs + bs, x * bs, x * bs + bs);
  }

  /** Every byte of the buffer is v. */
  predicate Flat(gray: seq<Byte>, v: Byte)
  {
    forall i :: 0 <= i < |gray| ==> gray[i] == v
  }

  /** A tally whose sum is v per counted byte. */
  predicate Scaled(t: Tally, v: Byte)
  {
    t.sum == t.count * v
  }

  lemma ScaledPlus(s: Tally, t: Tally, v: Byte)
    requires Scaled(s, v) && Scaled(t, v)
    ensures Scaled(Add(s, t), v)
  {
    MulAdd(s.count, t.count, v);
  }

  lemma {:induction false} RowScaled(gray: seq<Byte>, v: Byte, rowStart: nat, x0: nat, x1: nat)
    requires Flat(gray, v)
    ensures Scaled(GrayRowTally(gray, rowStart, x0, x1), v)
  {
    if x1 > x0 {
      RowScaled(gray, v, rowStart, x0, x1 - 1);
      ScaledPlus(GrayRowTally(gray, rowStart, x0, x1 - 1), GrayPixel(gray, rowStart, x1 - 1), v);
    }
  }

  lemma {:induction false} RegionScaled(gray: seq<Byte>, v: Byte, width: nat, y0: nat, y1: nat, x0: nat, x1: nat)
    requires Flat(gray, v)
    ensures Scaled(RegionTally(gray, width, y0, y1, x0, x1), v)
  {
    if y1 > y0 {
      RegionScaled(gray, v, width, y0, y1 - 1, x0, x1);
      RowScaled(gray, v, GrayRowStart(width, y1 - 1), x0, x1);
      ScaledPlus(RegionTally(gray, width, y0, y1 - 1, x0, x1), GrayRowTally(gray, GrayRowStart(width, y1 - 1), x0, x1), v);
    }
  }

  /** The mean of c bytes of level v is v. */
  lemma MeanOfFlat(c: nat, v: Byte)
    requires c > 0
    ensures Average(Tally(c * v, c)) == v
  {
    DivModUnique(c * v, c, v, 0);
  }

  /** On a buffer of one gray level v, every block with a byte in the buffer
      shows the glyph of v; one with none shows ' '. */
  lemma FlatBlock(gray: seq<Byte>, v: Byte, width: nat, height: nat, bs: nat, x: nat, y: nat)
    requires Flat(gray, v)
    ensures var t := BlockTally(gray, width, height, bs, x, y);
            CompactGlyph(Average(t)) == (if t.count > 0 then CompactGlyph(v) else Space)
  {
    var t := BlockTally(gray, width, height, bs, x, y);
    var x0, y0 := BlockStart(x, bs), BlockStart(y, bs);
    RegionScaled(gray, v, width, y0, Min(y0 + bs, height), x0, Min(x0 + bs, width));
    if t.count > 0 {
      MeanOfFlat(t.count, v);
    }
  }
}
