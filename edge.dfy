/** `apply_edge_detection` (src/wasm/src/lib.rs, lines 107-171): for each block
    of the grid, a 3x3 Sobel response around the block's centre pixel, its
    magnitude saturated to a byte, and the glyph of `ASCII_CHARS` for it. */
module Edge {
  import opened Image
  import opened Ramp

  /** `sobel_x`, indexed `[ky][kx]`. */
  const SobelX: seq<seq<int>> := [[-1, 0, 1], [-2, 0, 2], [-1, 0, 1]]

  /** `sobel_y`, indexed `[ky][kx]`. */
  const SobelY: seq<seq<int>> := [[-1, -2, -1], [0, 0, 0], [1, 2, 1]]

  /** A 3x3 table: kernels and sample windows. */
  predicate Square3(m: seq<seq<int>>)
  {
    |m| == 3 && |m[0]| == 3 && |m[1]| == 3 && |m[2]| == 3
  }

  /** The integer luma `(299r + 587g + 114b) / 1000` (the weights of ITU-R
      BT.601), a weighted average of the channels. */
  function Luma(r: Byte, g: Byte, b: Byte): (v: Byte)
    ensures Min(r, Min(g, b)) <= v <= Max(r, Max(g, b))
    ensures r == g == b ==> v == r
  {
    (299 * r + 587 * g + 114 * b) / 1000
  }

  /** `v.max(0).min(hi)`. */
  function Clamp(v: int, hi: nat): (c: nat)
    ensures c <= hi
    ensures 0 <= v <= hi ==> c == v
  {
    Min(Max(v, 0), hi)
  }

  /** `grid * block_size + block_size / 2`: the centre column (or row) of a block. */
  function Center(g: nat, bs: nat): nat { g * bs + bs / 2 }

  /** `(py * width + px) * 4`, the offset of pixel (px, py). */
  function PixelOffset(width: nat, px: nat, py: nat): nat { (py * width + px) * 4 }

  /** The luma of the pixel at column x, row y, each first clamped into the
      image, when its blue byte lies in the buffer. A pixel outside the
      buffer adds nothing to either response, so it reads as 0 here. */
  function ClampedLuma(rgba: seq<Byte>, width: nat, height: nat, x: int, y: int): Byte
    requires width > 0 && height > 0
  {
    var idx := PixelOffset(width, Clamp(x, width - 1), Clamp(y, height - 1));
    if idx + 2 < |rgba| then Luma(rgba[idx], rgba[idx + 1], rgba[idx + 2]) else 0
  }

  /** Sample (ky, kx) of the window around (cx, cy): `px` follows ky and `py`
      follows kx, so it is the pixel at column `cx + ky - 1`, row `cy + kx - 1`. */
  function Sample(rgba: seq<Byte>, width: nat, height: nat, cx: nat, cy: nat, ky: nat, kx: nat): Byte
    requires width > 0 && height > 0
  {
    ClampedLuma(rgba, width, height, cx + ky - 1, cy + kx - 1)
  }

  /** The nine samples the Sobel loop reads, indexed `[ky][kx]`. */
  function Window(rgba: seq<Byte>, width: nat, height: nat, cx: nat, cy: nat): (w: seq<seq<int>>)
    requires width > 0 && height > 0
    ensures Square3(w)
  {
    seq(3, (ky: nat) => seq(3, (kx: nat) => Sample(rgba, width, height, cx, cy, ky, kx)))
  }

  /** The first n terms `w[kx] * k[kx]` of one kernel row. */
  function RowDot(k: seq<int>, w: seq<int>, n: nat): int
    requires n <= |k| && n <= |w|
  {
    if n == 0 then 0 else RowDot(k, w, n - 1) + w[n - 1] * k[n - 1]
  }

  /** The terms of the first n kernel rows: a kernel's response to a window. */
  function Response(k: seq<seq<int>>, w: seq<seq<int>>, n: nat): int
    requires Square3(k) && Square3(w) && n <= 3
  {
    if n == 0 then 0 else Response(k, w, n - 1) + RowDot(k[n - 1], w[n - 1], 3)
  }

  /** The nine terms of a kernel's response, written out. */
  lemma ResponseExpand(k: seq<seq<int>>, w: seq<seq<int>>)
    requires Square3(k) && Square3(w)
    ensures Response(k, w, 3)
            == w[0][0] * k[0][0] + w[0][1] * k[0][1] + w[0][2] * k[0][2]
             + w[1][0] * k[1][0] + w[1][1] * k[1][1] + w[1][2] * k[1][2]
             + w[2][0] * k[2][0] + w[2][1] * k[2][1] + w[2][2] * k[2][2]
  {
    assert Response(k, w, 1) == RowDot(k[0], w[0], 3);
    assert Response(k, w, 2) == Response(k, w, 1) + RowDot(k[1], w[1], 3);
    RowDotExpand(k[0], w[0]);
    RowDotExpand(k[1], w[1]);
    RowDotExpand(k[2], w[2]);
  }

  lemma RowDotExpand(k: seq<int>, w: seq<int>)
    requires |k| == 3 && |w| == 3
    ensures RowDot(k, w, 3) == w[0] * k[0] + w[1] * k[1] + w[2] * k[2]
  {
    assert RowDot(k, w, 1) == w[0] * k[0];
    assert RowDot(k, w, 2) == RowDot(k, w, 1) + w[1] * k[1];
  }

  /** The integer square root of v, from that of `v / 4` (see `ISqrtIsRoot`). */
  function ISqrt(v: nat): nat
  {
    if v < 4 then (if v == 0 then 0 else 1)
    else
      var h := 2 * ISqrt(v / 4);
      if (h + 1) * (h + 1) <= v then h + 1 else h
  }

  /** `ISqrt(v)` is the largest r with `r * r <= v`. */
  lemma {:induction false} ISqrtIsRoot(v: nat)
    ensures var r := ISqrt(v); r * r <= v < (r + 1) * (r + 1)
  {
    if v >= 4 {
      var q := v / 4;
      ISqrtIsRoot(q);
      var s := ISqrt(q);
      RootStep(v, q, s);
    }
  }

  /** From the root s of `v / 4` to the root of v: `2 * s` or `2 * s + 1`. */
  lemma RootStep(v: nat, q: nat, s: nat)
    requires q == v / 4 && s * s <= q < (s + 1) * (s + 1)
    ensures var h := 2 * s; h * h <= v < (h + 2) * (h + 2)
  {
    var h := 2 * s;
    assert h * h == 4 * (s * s);
    assert (h + 2) * (h + 2) == 4 * ((s + 1) * (s + 1));
    assert v < 4 * q + 4;
  }

  /** `gx * gx + gy * gy`, the squared gradient. */
  function Energy(gx: int, gy: int): nat { gx * gx + gy * gy }

  /** `(energy as f64).sqrt() as u8`: the float-to-byte cast saturates, so
      this is `min(255, floor(sqrt(energy)))`, 0 for no gradient. */
  function Magnitude(energy: nat): (m: Byte)
    ensures m * m <= energy && (m == 255 || energy < (m + 1) * (m + 1))
    ensures energy == 0 ==> m == 0
  {
    ISqrtIsRoot(energy);
    var r := ISqrt(energy);
    if r > 255 then
      MulLe(255, r, 255);
      MulLe(255, r, r);
      255
    else r
  }

  /** The glyph of block (gx, gy). */
  function EdgeCell(rgba: seq<Byte>, width: nat, height: nat, bs: nat, gx: nat, gy: nat): (c: Byte)
    requires bs > 0 && gx < width / bs && gy < height / bs
    ensures c in AsciiChars
  {
    FullBlockFits(gx, width, bs);
    FullBlockFits(gy, height, bs);
    var w := Window(rgba, width, height, Center(gx, bs), Center(gy, bs));
    CompactGlyph(Magnitude(Energy(Response(SobelX, w, 3), Response(SobelY, w, 3))))
  }

  /** The glyph rows of the grid, top to bottom. */
  function EdgeRows(rgba: seq<Byte>, width: nat, height: nat, bs: nat): seq<seq<Byte>>
    requires bs > 0
  {
    seq(height / bs, (gy: nat) requires gy < height / bs =>
      seq(width / bs, (gx: nat) requires gx < width / bs => EdgeCell(rgba, width, height, bs, gx, gy)))
  }

  /** What `apply_edge_detection` returns. */
  function EdgeFrame(rgba: seq<Byte>, width: nat, height: nat, bs: nat): seq<Byte>
    requires bs > 0
  {
    Flatten(EdgeRows(rgba, width, height, bs))
  }

  /** The kernel loops of `apply_edge_detection` for the window around
      (centerX, centerY): `gx` and `gy` accumulate `gray * sobel[ky][kx]`
      over the samples whose blue byte lies in the buffer. */
  method SobelAt(rgba: seq<Byte>, width: nat, height: nat, centerX: nat, centerY: nat)
    returns (gx: int, gy: int)
    requires width > 0 && height > 0
    ensures gx == Response(SobelX, Window(rgba, width, height, centerX, centerY), 3)
    ensures gy == Response(SobelY, Window(rgba, width, height, centerX, centerY), 3)
  {
    ghost var w := Window(rgba, width, height, centerX, centerY);
    gx, gy := 0, 0;
    for ky := 0 to 3
      invariant gx == Response(SobelX, w, ky) && gy == Response(SobelY, w, ky)
    {
      gx, gy := SobelRow(rgba, width, height, centerX, centerY, ky, SobelX[ky], SobelY[ky], gx, gy);
    }
  }

  /** The `kx` loop for row ky of the window: `gx0` and `gy0` plus the
      samples times the entries of row ky of `sobel_x` (xRow) and of
      `sobel_y` (yRow). */
  method SobelRow(rgba: seq<Byte>, width: nat, height: nat, centerX: nat, centerY: nat, ky: nat,
                  xRow: seq<int>, yRow: seq<int>, gx0: int, gy0: int)
    returns (gx: int, gy: int)
    requires width > 0 && height > 0 && ky < 3 && |xRow| == 3 && |yRow| == 3
    ensures gx == gx0 + RowDot(xRow, Window(rgba, width, height, centerX, centerY)[ky], 3)
    ensures gy == gy0 + RowDot(yRow, Window(rgba, width, height, centerX, centerY)[ky], 3)
  {
    ghost var row := Window(rgba, width, height, centerX, centerY)[ky];
    gx, gy := gx0, gy0;
    for kx := 0 to 3
      invariant gx == gx0 + RowDot(xRow, row, kx)
      invariant gy == gy0 + RowDot(yRow, row, kx)
    {
      var inBuffer, gray := ReadSample(rgba, width, height, centerX, centerY, ky, kx);
      assert row[kx] == Sample(rgba, width, height, centerX, centerY, ky, kx);
      if inBuffer {
        gx := gx + gray * xRow[kx];
        gy := gy + gray * yRow[kx];
      }
    }
  }

  /** The clamped neighbour (ky, kx) of the Sobel loop: whether its blue byte
      lies in the buffer and, if so, its luma. */
  method ReadSample(rgba: seq<Byte>, width: nat, height: nat, centerX: nat, centerY: nat, ky: nat, kx: nat)
    returns (inBuffer: bool, gray: Byte)
    requires width > 0 && height > 0
    ensures inBuffer ==> gray == Sample(rgba, width, height, centerX, centerY, ky, kx)
    ensures !inBuffer ==> Sample(rgba, width, height, centerX, centerY, ky, kx) == 0
  {
    var px := Clamp(centerX + ky - 1, width - 1);
    var py := Clamp(centerY + kx - 1, height - 1);
    var idx := PixelOffset(width, px, py);
    inBuffer := idx + 2 < |rgba|;
    gray := 0;
    if inBuffer {
      gray := Luma(rgba[idx], rgba[idx + 1], rgba[idx + 2]);
    }
  }

  /** The glyphs of grid row gridY pushed onto `result`. */
  method EdgeRow(rgba: seq<Byte>, width: nat, height: nat, blockSize: nat, gridY: nat, result0: seq<Byte>)
    returns (result: seq<Byte>)
    requires blockSize > 0 && gridY < height / blockSize
    ensures result == result0 + EdgeRows(rgba, width, height, blockSize)[gridY]
  {
    ghost var row := EdgeRows(rgba, width, height, blockSize)[gridY];
    result := result0;
    var gridWidth := width / blockSize;
    FullBlockFits(gridY, height, blockSize);
    var gridX := 0;
    while gridX < gridWidth
      invariant gridX <= gridWidth
      invariant result == result0 + row[..gridX]
    {
      FullBlockFits(gridX, width, blockSize);
      var centerX := Center(gridX, blockSize);
      var centerY := Center(gridY, blockSize);
      var gx, gy := SobelAt(rgba, width, height, centerX, centerY);
      var magnitude := Magnitude(Energy(gx, gy));
      var ch := CompactGlyph(magnitude);
      assert row[gridX] == EdgeCell(rgba, width, height, blockSize, gridX, gridY) == ch;
      assert row[..gridX + 1] == row[..gridX] + [ch];
      result := result + [ch];
      gridX := gridX + 1;
    }
    assert row[..gridX] == row;
  }

  /** `apply_edge_detection`: the grid rows top to bottom. */
  method ApplyEdgeDetection(rgba: seq<Byte>, width: nat, height: nat, blockSize: nat)
    returns (result: seq<Byte>)
    requires blockSize > 0
    ensures result == EdgeFrame(rgba, width, height, blockSize)
  {
    ghost var rows := EdgeRows(rgba, width, height, blockSize);
    var gridHeight := height / blockSize;
    result := [];
    var gridY := 0;
    while gridY < gridHeight
      invariant gridY <= gridHeight
      invariant result == Flatten(rows[..gridY])
    {
      result := EdgeRow(rgba, width, height, blockSize, gridY, result);
      FlattenStep(rows, gridY);
      gridY := gridY + 1;
    }
    assert rows[..gridY] == rows;
  }
}
