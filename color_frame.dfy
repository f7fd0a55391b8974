/** `process_frame_with_color` (src/wasm/src/lib.rs, lines 23-105): the RGBA
    buffer is cut into `block_size` by `block_size` blocks; each block yields
    one glyph, from the mean integer gray, and one R, G, B triple, the mean
    colour. Partial blocks at the right and bottom are dropped. */
module ColorFrame {
  import opened Image
  import opened Ramp

  /** `ProcessedFrame`: one glyph per cell and three colour bytes per cell.
      Its `chars()` and `colors()` accessors return copies of these fields. */
  datatype ProcessedFrame = ProcessedFrame(chars: seq<Byte>, colors: seq<Byte>)

  /** The five accumulators of one block: `sum_gray`, `sum_r`, `sum_g`,
      `sum_b` and `count`. */
  datatype Sums = Sums(gray: nat, r: nat, g: nat, b: nat, count: nat)

  const NoSums: Sums := Sums(0, 0, 0, 0, 0)

  function Plus(s: Sums, t: Sums): Sums
  {
    Sums(s.gray + t.gray, s.r + t.r, s.g + t.g, s.b + t.b, s.count + t.count)
  }

  /** The integer gray `(3r + 6g + b) / 10`, a weighted average of the channels. */
  function Gray(r: Byte, g: Byte, b: Byte): (v: Byte)
    ensures Min(r, Min(g, b)) <= v <= Max(r, Max(g, b))
    ensures r == g == b ==> v == r
  {
    (r * 3 + g * 6 + b) / 10
  }

  /** What pixel x of the row starting at offset `rowStart` adds to the
      sums: its red byte is at `idx = rowStart + x * 4`, and it adds nothing
      unless `idx + 3` lies in the buffer. */
  function PixelSums(rgba: seq<Byte>, rowStart: nat, x: nat): Sums
  {
    var idx := rowStart + x * 4;
    if idx + 3 < |rgba| then
      Sums(Gray(rgba[idx], rgba[idx + 1], rgba[idx + 2]), rgba[idx], rgba[idx + 1], rgba[idx + 2], 1)
    else
      NoSums
  }

  /** The sums over pixels x0 <= x < x1 of the row starting at offset
      `rowStart`; pixel x of it is at `rowStart + x * 4`. */
  function RowSums(rgba: seq<Byte>, rowStart: nat, x0: nat, x1: nat): Sums
  {
    if x1 <= x0 then NoSums
    else Plus(RowSums(rgba, rowStart, x0, x1 - 1), PixelSums(rgba, rowStart, x1 - 1))
  }

  /** `y * width * 4`, the offset of row y. */
  function RowStart(width: nat, y: nat): nat { y * width * 4 }

  /** Every row starts on a pixel boundary. */
  lemma RowStartAligned(width: nat, y: nat)
    ensures RowStart(width, y) % 4 == 0
  {
    DivModUnique(RowStart(width, y), 4, y * width, 0);
  }

  /** With a `width * height * 4` buffer, pixels `0 .. x1` of row y < height lie
      inside it. */
  lemma RowInBuffer(width: nat, height: nat, y: nat, x1: nat)
    requires y < height && x1 <= width
    ensures RowStart(width, y) + x1 * 4 <= width * height * 4
  {
    MulLe(y + 1, height, width * 4);
  }

  /** The sums over rows y0 <= y < y1, columns x0 <= x < x1; row y starts at
      `y * width * 4`. */
  function RegionSums(rgba: seq<Byte>, width: nat, y0: nat, y1: nat, x0: nat, x1: nat): Sums
  {
    if y1 <= y0 then NoSums
    else Plus(RegionSums(rgba, width, y0, y1 - 1, x0, x1), RowSums(rgba, RowStart(width, y1 - 1), x0, x1))
  }

  /** The sums of the block in column gx, row gy of the grid: columns
      `start_x .. (start_x + bs).min(width)`, rows `start_y .. (start_y + bs).min(height)`. */
  function BlockSums(rgba: seq<Byte>, width: nat, height: nat, bs: nat, gx: nat, gy: nat): Sums
  {
    var x0, y0 := BlockStart(gx, bs), BlockStart(gy, bs);
    RegionSums(rgba, width, y0, Min(y0 + bs, height), x0, Min(x0 + bs, width))
  }

  /** `(sum / count).min(255) as u8`. */
  function Mean(sum: nat, count: nat): (m: Byte)
    requires count > 0
    ensures m <= sum / count
    ensures sum <= 255 * count ==> m == sum / count
  {
    if sum <= 255 * count then
      DivMonotone(sum, 255 * count, count);
      DivModUnique(255 * count, count, 255, 0);
      Min(sum / count, 255)
    else Min(sum / count, 255)
  }

  /** The glyph of a block: a ' ' when no pixel of it was in the buffer. */
  function CellChar(s: Sums, ramp: seq<Byte>): Byte
    requires |ramp| >= 1
  {
    if s.count > 0 then Glyph(Mean(s.gray, s.count), ramp) else Space
  }

  /** Channel c (0 red, 1 green, 2 blue) of a block's colour: black when no
      pixel of it was in the buffer. */
  function CellColor(s: Sums, c: nat): Byte
    requires c < 3
  {
    if s.count == 0 then 0
    else Mean(if c == 0 then s.r else if c == 1 then s.g else s.b, s.count)
  }

  /** The colour bytes of a block: R, G, B. */
  function CellColors(s: Sums): seq<Byte>
  {
    [CellColor(s, 0), CellColor(s, 1), CellColor(s, 2)]
  }

  /** The glyphs of a row of blocks, left to right. */
  function RowChars(row: seq<Sums>, ramp: seq<Byte>): seq<Byte>
    requires |ramp| >= 1
  {
    seq(|row|, i requires 0 <= i < |row| => CellChar(row[i], ramp))
  }

  /** The colour triples of a row of blocks, left to right. */
  function RowTriples(row: seq<Sums>): seq<seq<Byte>>
  {
    seq(|row|, i requires 0 <= i < |row| => CellColors(row[i]))
  }

  /** The glyph rows of a grid of blocks, top to bottom. */
  function GridChars(grid: seq<seq<Sums>>, ramp: seq<Byte>): seq<seq<Byte>>
    requires |ramp| >= 1
  {
    seq(|grid|, i requires 0 <= i < |grid| => RowChars(grid[i], ramp))
  }

  /** The colour rows of a grid of blocks, top to bottom. */
  function GridColors(grid: seq<seq<Sums>>): seq<seq<Byte>>
  {
    seq(|grid|, i requires 0 <= i < |grid| => Flatten(RowTriples(grid[i])))
  }

  /** The sums of every block of the `width / bs` by `height / bs` grid,
      indexed by row, then column. */
  function Blocks(rgba: seq<Byte>, width: nat, height: nat, bs: nat): seq<seq<Sums>>
    requires bs > 0
  {
    seq(height / bs, (gy: nat) => seq(width / bs, (gx: nat) => BlockSums(rgba, width, height, bs, gx, gy)))
  }

  /** The frame `process_frame_with_color` returns. */
  function Frame(rgba: seq<Byte>, width: nat, height: nat, bs: nat, useDetailed: bool): ProcessedFrame
    requires bs > 0
  {
    var grid := Blocks(rgba, width, height, bs);
    ProcessedFrame(Flatten(GridChars(grid, SelectRamp(useDetailed))), Flatten(GridColors(grid)))
  }

  /** The row loop of one block: rows `start_y .. end_y`, each starting at
      `row_start = y * width * 4`. */
  method SumBlock(rgba: seq<Byte>, width: nat, startX: nat, startY: nat, endX: nat, endY: nat)
    returns (sums: Sums)
    requires startX <= endX && startY <= endY
    ensures sums == RegionSums(rgba, width, startY, endY, startX, endX)
  {
    sums := NoSums;
    var y := startY;
    while y < endY
      invariant startY <= y <= endY
      invariant sums == RegionSums(rgba, width, startY, y, startX, endX)
    {
      var rowStart := RowStart(width, y);
      var row := SumRow(rgba, rowStart, startX, endX);
      sums := Plus(sums, row);
      y := y + 1;
    }
  }

  /** The pixel loop of one row of a block: columns `start_x .. end_x`, each
      adding what `PixelSums` says, so a pixel whose `idx + 3` is past the
      buffer adds nothing. */
  method SumRow(rgba: seq<Byte>, rowStart: nat, startX: nat, endX: nat) returns (row: Sums)
    requires startX <= endX
    ensures row == RowSums(rgba, rowStart, startX, endX)
  {
    row := NoSums;
    var x := startX;
    while x < endX
      invariant startX <= x <= endX
      invariant row == RowSums(rgba, rowStart, startX, x)
    {
      row := Plus(row, PixelSums(rgba, rowStart, x));
      x := x + 1;
    }
  }

  /** The body of the block loop for column gridX, row gridY: the block's
      sums, then its glyph and colour. */
  method BlockOutput(rgba: seq<Byte>, width: nat, height: nat, blockSize: nat, asciiSet: seq<Byte>,
                     gridX: nat, gridY: nat)
    returns (ch: Byte, rgb: seq<Byte>)
    requires blockSize > 0 && |asciiSet| >= 1
    requires gridX < width / blockSize && gridY < height / blockSize
    ensures var s := BlockSums(rgba, width, height, blockSize, gridX, gridY);
            ch == CellChar(s, asciiSet) && rgb == CellColors(s)
  {
    var startX := BlockStart(gridX, blockSize);
    var startY := BlockStart(gridY, blockSize);
    FullBlockFits(gridX, width, blockSize);
    FullBlockFits(gridY, height, blockSize);
    var endX := Min(startX + blockSize, width);
    var endY := Min(startY + blockSize, height);
    var sums := SumBlock(rgba, width, startX, startY, endX, endY);
    var count := sums.count;
    if count > 0 {
      var avgGray := Mean(sums.gray, count);
      var avgR := Mean(sums.r, count);
      var avgG := Mean(sums.g, count);
      var avgB := Mean(sums.b, count);
      ch := asciiSet[RampIndex(avgGray, |asciiSet|)];
      rgb := [avgR, avgG, avgB];
    } else {
      ch := Space;
      rgb := [0, 0, 0];
    }
  }

  /** The inner loop of `process_frame_with_color`: the blocks of grid row
      gridY, left to right, pushed onto `chars` and `colors`. */
  method EmitRow(rgba: seq<Byte>, width: nat, height: nat, blockSize: nat, asciiSet: seq<Byte>, gridY: nat,
                 chars0: seq<Byte>, colors0: seq<Byte>)
    returns (chars: seq<Byte>, colors: seq<Byte>)
    requires blockSize > 0 && |asciiSet| >= 1 && gridY < height / blockSize
    ensures chars == chars0 + RowChars(Blocks(rgba, width, height, blockSize)[gridY], asciiSet)
    ensures colors == colors0 + Flatten(RowTriples(Blocks(rgba, width, height, blockSize)[gridY]))
  {
    ghost var row := Blocks(rgba, width, height, blockSize)[gridY];
    ghost var rowChars, triples := RowChars(row, asciiSet), RowTriples(row);
    chars, colors := chars0, colors0;
    var gridWidth := width / blockSize;
    var gridX := 0;
    while gridX < gridWidth
      invariant gridX <= gridWidth
      invariant chars == chars0 + rowChars[..gridX]
      invariant colors == colors0 + Flatten(triples[..gridX])
    {
      var ch, rgb := BlockOutput(rgba, width, height, blockSize, asciiSet, gridX, gridY);
      assert row[gridX] == BlockSums(rgba, width, height, blockSize, gridX, gridY);
      assert rowChars[..gridX + 1] == rowChars[..gridX] + [ch];
      FlattenStep(triples, gridX);
      chars := chars + [ch];
      colors := colors + rgb;
      gridX := gridX + 1;
    }
    assert rowChars[..gridX] == rowChars;
    assert triples[..gridX] == triples;
  }

  /** `process_frame_with_color`: the grid rows top to bottom. */
  method ProcessFrameWithColor(rgba: seq<Byte>, width: nat, height: nat, blockSize: nat, useDetailedChars: bool)
    returns (frame: ProcessedFrame)
    requires blockSize > 0
    ensures frame == Frame(rgba, width, height, blockSize, useDetailedChars)
  {
    var gridHeight := height / blockSize;
    var chars: seq<Byte> := [];
    var colors: seq<Byte> := [];
    var asciiSet := if useDetailedChars then AsciiDetailed else AsciiChars;
    ghost var grid := Blocks(rgba, width, height, blockSize);
    ghost var charRows, colorRows := GridChars(grid, asciiSet), GridColors(grid);
    var gridY := 0;
    while gridY < gridHeight
      invariant gridY <= gridHeight
      invariant chars == Flatten(charRows[..gridY])
      invariant colors == Flatten(colorRows[..gridY])
    {
      chars, colors := EmitRow(rgba, width, height, blockSize, asciiSet, gridY, chars, colors);
      FlattenStep(charRows, gridY);
      FlattenStep(colorRows, gridY);
      gridY := gridY + 1;
    }
    assert charRows[..gridY] == charRows;
    assert colorRows[..gridY] == colorRows;
    frame := ProcessedFrame(chars, colors);
  }
}
