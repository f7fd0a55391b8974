/** What `apply_edge_detection` promises: one glyph of `ASCII_CHARS` per block,
    sampled inside the image, blank on a flat image, and a magnitude that does
    not depend on the transposed kernel indexing. */
module EdgeProps {
  import opened Image
  import opened Ramp
  import opened Edge

  lemma EdgeRowsShape(rgba: seq<Byte>, width: nat, height: nat, bs: nat)
    requires bs > 0
    ensures |EdgeRows(rgba, width, height, bs)| == height / bs
    ensures AllLength(EdgeRows(rgba, width, height, bs), width / bs)
  {}

  /** One glyph per block of the `width / bs` by `height / bs` grid. */
  lemma EdgeFrameLength(rgba: seq<Byte>, width: nat, height: nat, bs: nat)
    requires bs > 0
    ensures |EdgeFrame(rgba, width, height, bs)| == (height / bs) * (width / bs)
  {
    EdgeRowsShape(rgba, width, height, bs);
    FlattenLength(EdgeRows(rgba, width, height, bs), width / bs);
  }

  /** Glyph `y * gw + x` is that of block (x, y). */
  lemma EdgeFrameAt(rgba: seq<Byte>, width: nat, height: nat, bs: nat, x: nat, y: nat)
    requires bs > 0 && x < width / bs && y < height / bs
    ensures var f := EdgeFrame(rgba, width, height, bs);
            y * (width / bs) + x < |f| && f[y * (width / bs) + x] == EdgeCell(rgba, width, height, bs, x, y)
  {
    EdgeRowsShape(rgba, width, height, bs);
    FlattenAt(EdgeRows(rgba, width, height, bs), width / bs, y, x);
  }

  /** Every glyph of the result is one of `ASCII_CHARS`. */
  lemma EdgeFrameInRamp(rgba: seq<Byte>, width: nat, height: nat, bs: nat)
    requires bs > 0
    ensures forall c :: c in EdgeFrame(rgba, width, height, bs) ==> c in AsciiChars
  {
    var rows := EdgeRows(rgba, width, height, bs);
    forall i, j | 0 <= i < |rows| && 0 <= j < |rows[i]|
      ensures rows[i][j] in AsciiChars
    {
    }
    FlattenIn(rows, set c | c in AsciiChars);
  }

  /** The centre of block g lies inside the image. */
  lemma CenterInImage(g: nat, n: nat, bs: nat)
    requires bs > 0 && g < n / bs
    ensures Center(g, bs) < n
  {
    FullBlockFits(g, n, bs);
  }

  /** For a block size of 3 or more the window's columns `centre - 1 ..
      centre + 1` (and likewise its rows) lie inside the block itself, so a
      boundary that falls between two blocks is never inside a window. With
      block size 1 or 2 the window reaches into the next block. */
  lemma WindowInsideBlock(g: nat, bs: nat)
    requires bs >= 3
    ensures BlockStart(g, bs) < Center(g, bs) && Center(g, bs) + 1 < BlockStart(g, bs) + bs
  {}

  /** With block size 1 or 2 the window of every block g reads the first
      column (or row) of block g + 1. */
  lemma WindowStraddlesSmallBlock(g: nat, bs: nat)
    requires 1 <= bs <= 2
    ensures Center(g, bs) + 1 == BlockStart(g + 1, bs)
  {
    if bs == 1 {
      assert Center(g, 1) == g;
    } else {
      assert Center(g, 2) == 2 * g + 1;
    }
  }

  /** A window whose nine samples are equal has zero response to both
      kernels: each kernel's entries sum to zero. */
  lemma FlatWindow(w: seq<seq<int>>, v: int)
    requires Square3(w)
    requires forall i, j :: 0 <= i < 3 && 0 <= j < 3 ==> w[i][j] == v
    ensures Response(SobelX, w, 3) == 0 && Response(SobelY, w, 3) == 0
  {
    ResponseExpand(SobelX, w);
    ResponseExpand(SobelY, w);
    assert w[0][0] == w[0][1] == w[0][2] == w[1][0] == w[1][1] == w[1][2] == w[2][0] == w[2][1] == w[2][2] == v;
  }

  /** In a complete one-colour image every pixel the window reads has the
      colour's luma. */
  lemma UniformLuma(rgba: seq<Byte>, r: Byte, g: Byte, b: Byte, width: nat, height: nat, x: int, y: int)
    requires Uniform(rgba, r, g, b) && |rgba| >= width * height * 4 && width > 0 && height > 0
    ensures ClampedLuma(rgba, width, height, x, y) == Luma(r, g, b)
  {
    var px, py := Clamp(x, width - 1), Clamp(y, height - 1);
    CellIndexInGrid(px, py, width, height);
    var idx := PixelOffset(width, px, py);
    DivModUnique(idx, 4, py * width + px, 0);
  }

  /** In a complete one-colour image the window around any centre is flat. */
  lemma UniformWindow(rgba: seq<Byte>, r: Byte, g: Byte, b: Byte, width: nat, height: nat, cx: nat, cy: nat)
    requires Uniform(rgba, r, g, b) && |rgba| >= width * height * 4 && width > 0 && height > 0
    ensures forall i, j :: 0 <= i < 3 && 0 <= j < 3 ==> Window(rgba, width, height, cx, cy)[i][j] == Luma(r, g, b)
  {
    forall i: nat, j: nat | i < 3 && j < 3
      ensures Window(rgba, width, height, cx, cy)[i][j] == Luma(r, g, b)
    {
      UniformLuma(rgba, r, g, b, width, height, cx + i - 1, cy + j - 1);
    }
  }

  /** A complete one-colour image has no edges: every block is ' '. */
  lemma UniformIsBlank(rgba: seq<Byte>, r: Byte, g: Byte, b: Byte, width: nat, height: nat, bs: nat, x: nat, y: nat)
    requires Uniform(rgba, r, g, b) && |rgba| >= width * height * 4
    requires bs > 0 && x < width / bs && y < height / bs
    ensures EdgeCell(rgba, width, height, bs, x, y) == Space
  {
    FullBlockFits(x, width, bs);
    FullBlockFits(y, height, bs);
    UniformWindow(rgba, r, g, b, width, height, Center(x, bs), Center(y, bs));
    FlatIsBlank(Window(rgba, width, height, Center(x, bs), Center(y, bs)), Luma(r, g, b));
  }

  /** A flat window gives the glyph ' '. */
  lemma FlatIsBlank(w: seq<seq<int>>, v: int)
    requires Square3(w)
    requires forall i, j :: 0 <= i < 3 && 0 <= j < 3 ==> w[i][j] == v
    ensures CompactGlyph(Magnitude(Energy(Response(SobelX, w, 3), Response(SobelY, w, 3)))) == Space
  {
    FlatWindow(w, v);
    CompactGlyphIsGlyph(0);
  }

  /** The window in textbook orientation, indexed `[row][column]`: entry
      (i, j) is the pixel at column `cx + j - 1`, row `cy + i - 1`. */
  function TextbookWindow(rgba: seq<Byte>, width: nat, height: nat, cx: nat, cy: nat): (w: seq<seq<int>>)
    requires width > 0 && height > 0
    ensures Square3(w)
  {
    seq(3, (i: nat) => seq(3, (j: nat) => ClampedLuma(rgba, width, height, cx + j - 1, cy + i - 1)))
  }

  /** Each Sobel kernel is the transpose of the other, so transposing the
      window swaps the two responses. */
  lemma TransposeSwaps(w: seq<seq<int>>, t: seq<seq<int>>)
    requires Square3(w) && Square3(t)
    requires forall i, j :: 0 <= i < 3 && 0 <= j < 3 ==> w[i][j] == t[j][i]
    ensures Response(SobelX, w, 3) == Response(SobelY, t, 3) && Response(SobelY, w, 3) == Response(SobelX, t, 3)
  {
    ResponseExpand(SobelX, w);
    ResponseExpand(SobelY, w);
    ResponseExpand(SobelX, t);
    ResponseExpand(SobelY, t);
    assert w[0][1] == t[1][0] && w[1][0] == t[0][1] && w[0][0] == t[0][0] && w[0][2] == t[2][0];
    assert w[2][0] == t[0][2] && w[1][2] == t[2][1] && w[2][1] == t[1][2] && w[2][2] == t[2][2];
  }

  /** The source's `gx` is the textbook vertical response and its `gy` the
      textbook horizontal one: the window it reads is the transpose. */
  lemma ResponsesTransposed(rgba: seq<Byte>, width: nat, height: nat, cx: nat, cy: nat)
    requires width > 0 && height > 0
    ensures var w, t := Window(rgba, width, height, cx, cy), TextbookWindow(rgba, width, height, cx, cy);
            Response(SobelX, w, 3) == Response(SobelY, t, 3) && Response(SobelY, w, 3) == Response(SobelX, t, 3)
  {
    var w, t := Window(rgba, width, height, cx, cy), TextbookWindow(rgba, width, height, cx, cy);
    forall i, j | 0 <= i < 3 && 0 <= j < 3
      ensures w[i][j] == t[j][i]
    {
    }
    TransposeSwaps(w, t);
  }

  /** Hence the glyph is that of the textbook gradient magnitude. */
  lemma EdgeCellTextbook(rgba: seq<Byte>, width: nat, height: nat, bs: nat, x: nat, y: nat)
    requires bs > 0 && x < width / bs && y < height / bs
    ensures width > 0 && height > 0
    ensures var t := TextbookWindow(rgba, width, height, Center(x, bs), Center(y, bs));
            EdgeCell(rgba, width, height, bs, x, y) == CompactGlyph(Magnitude(Energy(Response(SobelX, t, 3), Response(SobelY, t, 3))))
  {
    FullBlockFits(x, width, bs);
    FullBlockFits(y, height, bs);
    ResponsesTransposed(rgba, width, height, Center(x, bs), Center(y, bs));
    var w := Window(rgba, width, height, Center(x, bs), Center(y, bs));
  }
}
