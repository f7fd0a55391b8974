/** `process_frame` (src/wasm/src/lib.rs, lines 199-240): the single-channel
    block mapper. Byte `y * width + x` of the buffer is the gray of pixel
    (x, y); each full block yields the glyph of `ASCII_CHARS` for its mean. */
module GrayFrame {
  import opened Image
  import opened Ramp

  /** `sum` and `count` of one block. */
  datatype Tally = Tally(sum: nat, count: nat)

  const NoTally: Tally := Tally(0, 0)

  function Add(s: Tally, t: Tally): Tally { Tally(s.sum + t.sum, s.count + t.count) }

  /** What pixel x of the row starting at `rowStart` adds: its byte at
      `idx = rowStart + x` when idx lies in the buffer, else nothing. */
  function GrayPixel(gray: seq<Byte>, rowStart: nat, x: nat): Tally
  {
    var idx := rowStart + x;
    if idx < |gray| then Tally(gray[idx], 1) else NoTally
  }

  /** Pixels x0 <= x < x1 of the row starting at `rowStart`. */
  function GrayRowTally(gray: seq<Byte>, rowStart: nat, x0: nat, x1: nat): Tally
  {
    if x1 <= x0 then NoTally
    else Add(GrayRowTally(gray, rowStart, x0, x1 - 1), GrayPixel(gray, rowStart, x1 - 1))
  }

  /** `y * width`, the offset of row y. */
  function GrayRowStart(width: nat, y: nat): nat { y * width }

  /** Rows y0 <= y < y1, columns x0 <= x < x1. */
  function RegionTally(gray: seq<Byte>, width: nat, y0: nat, y1: nat, x0: nat, x1: nat): Tally
  {
    if y1 <= y0 then NoTally
    else Add(RegionTally(gray, width, y0, y1 - 1, x0, x1), GrayRowTally(gray, GrayRowStart(width, y1 - 1), x0, x1))
  }

  /** The tally of the block in column gx, row gy. */
  function BlockTally(gray: seq<Byte>, width: nat, height: nat, bs: nat, gx: nat, gy: nat): Tally
  {
    var x0, y0 := BlockStart(gx, bs), BlockStart(gy, bs);
    RegionTally(gray, width, y0, Min(y0 + bs, height), x0, Min(x0 + bs, width))
  }

  /** `as u8` on an integer keeps its low eight bits. */
  function AsU8(n: nat): Byte { n % 256 }

  /** `avg_brightness`: `(sum / count) as u8`, or 0 for an empty block. */
  function Average(t: Tally): (a: Byte)
    ensures t.count == 0 ==> a == 0
    ensures t.count > 0 && t.sum <= 255 * t.count ==> a == t.sum / t.count
  {
    if t.count == 0 then 0
    else if t.sum <= 255 * t.count then
      DivMonotone(t.sum, 255 * t.count, t.count);
      DivModUnique(255 * t.count, t.count, 255, 0);
      AsU8(t.sum / t.count)
    else AsU8(t.sum / t.count)
  }

  /** The glyph rows of the grid, top to bottom. */
  function GrayRows(gray: seq<Byte>, width: nat, height: nat, bs: nat): seq<seq<Byte>>
    requires bs > 0
  {
    seq(height / bs, (gy: nat) => seq(width / bs, (gx: nat) => CompactGlyph(Average(BlockTally(gray, width, height, bs, gx, gy)))))
  }

  /** What `process_frame` returns. */
  function GrayFrameOf(gray: seq<Byte>, width: nat, height: nat, bs: nat): seq<Byte>
    requires bs > 0
  {
    Flatten(GrayRows(gray, width, height, bs))
  }

  /** The column loop of one row of a block. */
  method SumGrayRow(gray: seq<Byte>, rowStart: nat, startX: nat, endX: nat) returns (t: Tally)
    requires startX <= endX
    ensures t == GrayRowTally(gray, rowStart, startX, endX)
  {
    t := NoTally;
    var x := startX;
    while x < endX
      invariant startX <= x <= endX
      invariant t == GrayRowTally(gray, rowStart, startX, x)
    {
      var idx := rowStart + x;
      if idx < |gray| {
        t := Tally(t.sum + gray[idx], t.count + 1);
      }
      x := x + 1;
    }
  }

  /** The row loop of one block. */
  method SumGrayBlock(gray: seq<Byte>, width: nat, startX: nat, startY: nat, endX: nat, endY: nat) returns (t: Tally)
    requires startX <= endX && startY <= endY
    ensures t == RegionTally(gray, width, startY, endY, startX, endX)
  {
    t := NoTally;
    var y := startY;
    while y < endY
      invariant startY <= y <= endY
      invariant t == RegionTally(gray, width, startY, y, startX, endX)
    {
      var row := SumGrayRow(gray, GrayRowStart(width, y), startX, endX);
      t := Add(t, row);
      y := y + 1;
    }
  }

  /** The body of the block loop for column gridX, row gridY. */
  method GrayBlockChar(gray: seq<Byte>, width: nat, height: nat, blockSize: nat, gridX: nat, gridY: nat)
    returns (ch: Byte)
    requires blockSize > 0 && gridX < width / blockSize && gridY < height / blockSize
    ensures ch == CompactGlyph(Average(BlockTally(gray, width, height, blockSize, gridX, gridY)))
  {
    var startX := BlockStart(gridX, blockSize);
    var startY := BlockStart(gridY, blockSize);
    FullBlockFits(gridX, width, blockSize);
    FullBlockFits(gridY, height, blockSize);
    var endX := Min(startX + blockSize, width);
    var endY := Min(startY + blockSize, height);
    var t := SumGrayBlock(gray, width, startX, startY, endX, endY);
    var avgBrightness := Average(t);
    var charIndex := (avgBrightness as nat) * 9 / 255;
    ch := AsciiChars[charIndex];
  }

  /** Grid row gridY pushed onto `result`. */
  method GrayRow(gray: seq<Byte>, width: nat, height: nat, blockSize: nat, gridY: nat, result0: seq<Byte>)
    returns (result: seq<Byte>)
    requires blockSize > 0 && gridY < height / blockSize
    ensures result == result0 + GrayRows(gray, width, height, blockSize)[gridY]
  {
    ghost var row := GrayRows(gray, width, height, blockSize)[gridY];
    result := result0;
    var gridWidth := width / blockSize;
    var gridX := 0;
    while gridX < gridWidth
      invariant gridX <= gridWidth
      invariant result == result0 + row[..gridX]
    {
      var ch := GrayBlockChar(gray, width, height, blockSize, gridX, gridY);
      assert row[gridX] == ch;
      assert row[..gridX + 1] == row[..gridX] + [ch];
      result := result + [ch];
      gridX := gridX + 1;
    }
    assert row[..gridX] == row;
  }

  /** `process_frame`: the grid rows top to bottom. */
  method ProcessFrame(gray: seq<Byte>, width: nat, height: nat, blockSize: nat)
    returns (result: seq<Byte>)
    requires blockSize > 0
    ensures result == GrayFrameOf(gray, width, height, blockSize)
  {
    ghost var rows := GrayRows(gray, width, height, blockSize);
    var gridHeight := height / blockSize;
    result := [];
    var gridY := 0;
    while gridY < gridHeight
      invariant gridY <= gridHeight
      invariant result == Flatten(rows[..gridY])
    {
      result := GrayRow(gray, width, height, blockSize, gridY, result);
      FlattenStep(rows, gridY);
      gridY := gridY + 1;
    }
    assert rows[..gridY] == rows;
  }
}
