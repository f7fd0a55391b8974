/** What the studio page promises: the export is `gridHeight` lines of
    `gridWidth` glyphs, each glyph that of its block in the raw frame; the
    renderer receives exactly one block per grid cell, coloured by the colour
    engine or drawn white in edge mode; only the contrast pass can fail. */
module StudioProps {
  import opened Image
  import opened Ramp
  import opened ColorFrame
  import opened ColorFrameProps
  import opened Edge
  import opened EdgeProps
  import opened Renderer
  import opened Studio

  lemma TextLines(chars: seq<Byte>, gw: nat, gh: nat)
    ensures var lines := seq(gh, (y: nat) => TextLine(chars, gw, y));
            |lines| == gh && AllLength(lines, gw + 1)
  {}

  /** The export holds `gh * (gw + 1)` characters. */
  lemma ExportLength(chars: seq<Byte>, gw: nat, gh: nat)
    ensures |GridText(chars, gw, gh)| == gh * (gw + 1)
  {
    TextLines(chars, gw, gh);
    FlattenLength(seq(gh, (y: nat) => TextLine(chars, gw, y)), gw + 1);
  }

  /** Column x of line y is glyph `y * gw + x`, and every line ends in a
      newline. */
  lemma ExportAt(chars: seq<Byte>, gw: nat, gh: nat, x: nat, y: nat)
    requires x < gw && y < gh
    ensures var text := GridText(chars, gw, gh);
            y * (gw + 1) + gw < |text|
            && text[y * (gw + 1) + x] == CharAt(chars, y * gw + x)
            && text[y * (gw + 1) + gw] == '\n'
  {
    var lines := seq(gh, (y: nat) => TextLine(chars, gw, y));
    TextLines(chars, gw, gh);
    FlattenAt(lines, gw + 1, y, x);
    FlattenAt(lines, gw + 1, y, gw);
  }

  /** Glyph (x, y) of the export is the glyph of block (x, y) of the raw
      frame; the NUL of a read past the buffer never occurs. */
  lemma ExportedCell(fd: FrameData, detailed: bool, x: nat, y: nat)
    requires x < fd.width / BlockSize && y < fd.height / BlockSize
    ensures TextAt(ExportedText(fd, detailed), fd.width / BlockSize, x, y,
                   CellChar(BlockSums(fd.data, fd.width, fd.height, BlockSize, x, y), SelectRamp(detailed)) as char)
  {
    var f := Frame(fd.data, fd.width, fd.height, BlockSize, detailed);
    FrameAt(fd.data, fd.width, fd.height, BlockSize, detailed, x, y);
    ExportAt(f.chars, fd.width / BlockSize, fd.height / BlockSize, x, y);
  }

  /** Column x of line y of an export whose lines hold gw glyphs is c. */
  predicate TextAt(text: string, gw: nat, x: nat, y: nat, c: char)
  {
    var k := y * (gw + 1) + x;
    k < |text| && text[k] == c
  }

  /** The processing of a frame fails only under the contrast filter, on a
      buffer that is not whole RGBA pixels. */
  lemma OnlyContrastFails(filter: Filter, mode: ColorMode, detailed: bool, rgba: seq<Byte>, width: nat, height: nat)
    ensures Rendered(filter, mode, detailed, rgba, width, height).None?
            <==> filter == ContrastFilter && |rgba| % 4 != 0
  {}

  /** The block of cell (x, y), index `y * gw + x`, of the renderer's call is
      `block`. */
  predicate BlockAt(r: Option<RenderCall>, gw: nat, x: nat, y: nat, block: Block)
  {
    var k := y * gw + x;
    r.Some? && k < |r.value.blocks| && r.value.blocks[k] == block
  }

  /** The call covers the grid: one block per cell, so the renderer's
      `idx >= blockData.length` skip never fires. */
  predicate CoversGrid(r: Option<RenderCall>, width: nat, height: nat)
  {
    r.Some? && r.value.gridWidth == width / BlockSize && r.value.gridHeight == height / BlockSize
    && |r.value.blocks| == r.value.gridWidth * r.value.gridHeight
  }

  lemma ColorBlocksAt(f: ProcessedFrame, gw: nat, x: nat, y: nat)
    requires |f.colors| == 3 * |f.chars| && y * gw + x < |f.chars|
    ensures var k := y * gw + x;
            |ColorBlocks(f)| == |f.chars|
            && ColorBlocks(f)[k] == Block(f.chars[k], f.colors[3 * k], f.colors[3 * k + 1], f.colors[3 * k + 2])
  {}

  /** The renderer's call on the colour path, in terms of the colour engine. */
  lemma ColorCall(filter: Filter, mode: ColorMode, detailed: bool, rgba: seq<Byte>, width: nat, height: nat)
    requires filter == NoFilter || (filter == ContrastFilter && |rgba| % 4 == 0)
    ensures var f := Frame(Processed(filter, rgba), width, height, BlockSize, detailed);
            |f.colors| == 3 * |f.chars| && |f.chars| == (height / BlockSize) * (width / BlockSize)
            && Rendered(filter, mode, detailed, rgba, width, height)
               == Some(RenderCall(ColorBlocks(f), width / BlockSize, height / BlockSize, mode))
  {
    FrameShape(Processed(filter, rgba), width, height, BlockSize, detailed);
  }

  /** The colour path (no filter, or contrast on whole pixels): one block per
      cell, in the page's colour mode, block (x, y) carrying the glyph and
      mean colour of that block of the (contrast-stretched) frame. */
  lemma ColorPath(filter: Filter, mode: ColorMode, detailed: bool, rgba: seq<Byte>, width: nat, height: nat, x: nat, y: nat)
    requires filter == NoFilter || (filter == ContrastFilter && |rgba| % 4 == 0)
    requires x < width / BlockSize && y < height / BlockSize
    ensures var r := Rendered(filter, mode, detailed, rgba, width, height);
            var s := BlockSums(Processed(filter, rgba), width, height, BlockSize, x, y);
            CoversGrid(r, width, height) && r.value.mode == mode
            && BlockAt(r, width / BlockSize, x, y,
                       Block(CellChar(s, SelectRamp(detailed)), CellColor(s, 0), CellColor(s, 1), CellColor(s, 2)))
  {
    var p := Processed(filter, rgba);
    var f := Frame(p, width, height, BlockSize, detailed);
    var s := BlockSums(p, width, height, BlockSize, x, y);
    var gw, gh := width / BlockSize, height / BlockSize;
    var block := Block(CellChar(s, SelectRamp(detailed)), CellColor(s, 0), CellColor(s, 1), CellColor(s, 2));
    ColorCall(filter, mode, detailed, rgba, width, height);
    FrameAt(p, width, height, BlockSize, detailed, x, y);
    ColorBlockOfCell(f, gw, x, y, block.ch, block.r, block.g, block.b);
    CallShows(Rendered(filter, mode, detailed, rgba, width, height), ColorBlocks(f), width, height, gw, gh, mode, x, y, block);
  }

  /** A call built from a grid's blocks covers the grid and carries each of them. */
  lemma CallShows(r: Option<RenderCall>, blocks: seq<Block>, width: nat, height: nat, gw: nat, gh: nat, mode: ColorMode, x: nat, y: nat, block: Block)
    requires gw == width / BlockSize && gh == height / BlockSize
    requires r == Some(RenderCall(blocks, gw, gh, mode)) && |blocks| == gh * gw
    requires y * gw + x < |blocks| && blocks[y * gw + x] == block
    ensures CoversGrid(r, width, height) && BlockAt(r, gw, x, y, block)
  {}

  /** A cell of the engine's frame becomes the block of the same index. */
  lemma ColorBlockOfCell(f: ProcessedFrame, gw: nat, x: nat, y: nat, ch: Byte, r: Byte, g: Byte, b: Byte)
    requires |f.colors| == 3 * |f.chars| && CellIs(f, y * gw + x, ch, r, g, b)
    ensures |ColorBlocks(f)| == |f.chars| && y * gw + x < |ColorBlocks(f)| && ColorBlocks(f)[y * gw + x] == Block(ch, r, g, b)
  {
    ColorBlocksAt(f, gw, x, y);
  }

  /** The renderer's call on the edge path, in terms of the edge engine. */
  lemma EdgeCall(mode: ColorMode, detailed: bool, rgba: seq<Byte>, width: nat, height: nat)
    ensures Rendered(EdgeFilter, mode, detailed, rgba, width, height)
            == Some(RenderCall(EdgeBlocks(EdgeFrame(rgba, width, height, BlockSize)), width / BlockSize, height / BlockSize, Grayscale))
  {}

  lemma EdgeBlocksAt(chars: seq<Byte>, gw: nat, x: nat, y: nat)
    requires y * gw + x < |chars|
    ensures var k := y * gw + x;
            |EdgeBlocks(chars)| == |chars| && EdgeBlocks(chars)[k] == Block(chars[k], 255, 255, 255)
  {}

  /** The edge path: one block per cell, glyph (x, y) the edge glyph of that
      block of the unfiltered frame, every block white and the mode forced to
      grayscale, so every cell is drawn in white. */
  lemma EdgePath(mode: ColorMode, detailed: bool, rgba: seq<Byte>, width: nat, height: nat, x: nat, y: nat)
    requires x < width / BlockSize && y < height / BlockSize
    ensures var r, block := Rendered(EdgeFilter, mode, detailed, rgba, width, height),
                            Block(EdgeCell(rgba, width, height, BlockSize, x, y), 255, 255, 255);
            CoversGrid(r, width, height) && r.value.mode == Grayscale
            && BlockAt(r, width / BlockSize, x, y, block)
            && CellFill(r.value.mode, block) == Hex("#fff")
  {
    var e := EdgeFrame(rgba, width, height, BlockSize);
    EdgeCall(mode, detailed, rgba, width, height);
    EdgeFrameLength(rgba, width, height, BlockSize);
    EdgeFrameAt(rgba, width, height, BlockSize, x, y);
    EdgeBlocksAt(e, width / BlockSize, x, y);
  }

  /** The export ignores the filter: its glyph (x, y) is the glyph the
      unfiltered colour path hands the renderer for that cell. */
  lemma ExportIsUnfiltered(fd: FrameData, mode: ColorMode, detailed: bool, x: nat, y: nat)
    requires x < fd.width / BlockSize && y < fd.height / BlockSize
    ensures var gw, text := fd.width / BlockSize, ExportedText(fd, detailed);
            exists block :: BlockAt(Rendered(NoFilter, mode, detailed, fd.data, fd.width, fd.height), gw, x, y, block)
                            && TextAt(text, gw, x, y, block.ch as char)
  {
    var s := BlockSums(fd.data, fd.width, fd.height, BlockSize, x, y);
    var block := Block(CellChar(s, SelectRamp(detailed)), CellColor(s, 0), CellColor(s, 1), CellColor(s, 2));
    ColorPath(NoFilter, mode, detailed, fd.data, fd.width, fd.height, x, y);
    ExportedCell(fd, detailed, x, y);
    assert BlockAt(Rendered(NoFilter, mode, detailed, fd.data, fd.width, fd.height), fd.width / BlockSize, x, y, block);
  }
}
