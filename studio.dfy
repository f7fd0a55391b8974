/** The studio page (src/pages/Studio.ts): its render settings, the filter
    dispatch that feeds a frame through the engine, the zip of the engine's
    glyph and colour buffers into the renderer's `blockData`, and the plain
    text export. The DOM, camera, file upload and download are not part of
    this model. */
module Studio {
  import opened Image
  import opened ColorFrame
  import opened ColorFrameProps
  import opened Edge
  import opened Contrast
  import opened ContrastProps
  import opened Renderer

  datatype Option<T> = None | Some(value: T)

  /** `currentFilter`. */
  datatype Filter = NoFilter | EdgeFilter | ContrastFilter

  /** `currentFrameData`: an RGBA buffer with its dimensions. */
  datatype FrameData = FrameData(data: seq<Byte>, width: nat, height: nat)

  /** The arguments of one `renderWithColorAndDimensions` call. */
  datatype RenderCall = RenderCall(blocks: seq<Block>, gridWidth: nat, gridHeight: nat, mode: ColorMode)

  /** `BLOCK_SIZE`. */
  const BlockSize: nat := 8

  /** The amount the contrast filter passes to `apply_contrast`. */
  const ContrastAmount: real := 50.0

  /** The edge path's `blockData`, the `asciiChars.map`: every glyph drawn in white. */
  function EdgeBlocks(chars: seq<Byte>): (r: seq<Block>)
    ensures |r| == |chars|
    ensures forall k :: 0 <= k < |chars| ==> r[k] == Block(chars[k], 255, 255, 255)
  {
    seq(|chars|, i requires 0 <= i < |chars| => Block(chars[i], 255, 255, 255))
  }

  /** The colour path's `blockData`: glyph i with colour bytes 3i to 3i + 2. */
  function ColorBlocks(f: ProcessedFrame): (r: seq<Block>)
    requires |f.colors| == 3 * |f.chars|
    ensures |r| == |f.chars|
    ensures forall k :: 0 <= k < |f.chars| ==> r[k] == Block(f.chars[k], f.colors[3 * k], f.colors[3 * k + 1], f.colors[3 * k + 2])
  {
    seq(|f.chars|, i requires 0 <= i < |f.chars| => Block(f.chars[i], f.colors[3 * i], f.colors[3 * i + 1], f.colors[3 * i + 2]))
  }

  /** `processedRgba`: the frame after the contrast pass, when it runs. */
  function Processed(filter: Filter, rgba: seq<Byte>): (p: seq<Byte>)
    ensures filter != ContrastFilter ==> p == rgba
    ensures |rgba| % 4 == 0 ==> |p| == |rgba|
  {
    if filter == ContrastFilter then
      var f := Factor(ContrastAmount);
      if |rgba| % 4 == 0 then ContrastLength(f, rgba); Contrasted(f, rgba)
      else Contrasted(f, rgba)
    else rgba
  }

  /** What `processFrameData` hands to the renderer for a frame under the given
      settings; None when the contrast pass traps on a buffer that is not
      whole pixels (the error is caught and nothing is drawn). */
  function Rendered(filter: Filter, mode: ColorMode, detailed: bool, rgba: seq<Byte>, width: nat, height: nat): (r: Option<RenderCall>)
    ensures r.Some? ==> r.value.gridWidth == width / BlockSize && r.value.gridHeight == height / BlockSize
    ensures r.Some? ==> r.value.mode == if filter == EdgeFilter then Grayscale else mode
  {
    var gw, gh := width / BlockSize, height / BlockSize;
    if filter == ContrastFilter && |rgba| % 4 != 0 then None
    else
      var processed := Processed(filter, rgba);
      if filter == EdgeFilter then
        Some(RenderCall(EdgeBlocks(EdgeFrame(processed, width, height, BlockSize)), gw, gh, Grayscale))
      else
        var f := Frame(processed, width, height, BlockSize, detailed);
        FrameShape(processed, width, height, BlockSize, detailed);
        Some(RenderCall(ColorBlocks(f), gw, gh, mode))
  }

  /** `String.fromCharCode(asciiBytes[k])`; past the end of the buffer the
      source reads `undefined`, which converts to NUL. */
  function CharAt(chars: seq<Byte>, k: nat): (c: char)
    ensures k < |chars| ==> c == chars[k] as char
    ensures k >= |chars| ==> c == 0 as char
  {
    if k < |chars| then chars[k] as char else 0 as char
  }

  /** Line y of the export: `gw` glyphs and a newline. */
  function TextLine(chars: seq<Byte>, gw: nat, y: nat): string
  {
    seq(gw, (x: nat) => CharAt(chars, y * gw + x)) + "\n"
  }

  /** The `gh` lines of the export, top to bottom. */
  function GridText(chars: seq<Byte>, gw: nat, gh: nat): string
  {
    Flatten(seq(gh, (y: nat) => TextLine(chars, gw, y)))
  }

  /** The text `exportAsText` downloads for a frame: always from the raw
      frame, whatever the filter. */
  function ExportedText(frame: FrameData, detailed: bool): string
  {
    GridText(Frame(frame.data, frame.width, frame.height, BlockSize, detailed).chars,
             frame.width / BlockSize, frame.height / BlockSize)
  }

  class StudioPage {
    var currentColorMode: ColorMode
    var currentFilter: Filter
    var useDetailedChars: bool
    var currentFrameData: Option<FrameData>

    constructor ()
      ensures currentColorMode == Grayscale && currentFilter == NoFilter
      ensures !useDetailedChars && currentFrameData == None
    {
      currentColorMode := Grayscale;
      currentFilter := NoFilter;
      useDetailedChars := false;
      currentFrameData := None;
    }

    /** What re-processing the current frame, if any, renders. */
    function Rerendered(): Option<RenderCall>
      reads this
    {
      match currentFrameData
      case None => None
      case Some(fd) => Rendered(currentFilter, currentColorMode, useDetailedChars, fd.data, fd.width, fd.height)
    }

    /** `processFrameData`: the contrast pass, then the edge engine or the
        colour engine, then the `blockData` handed to the renderer. */
    method ProcessFrameData(rgba: seq<Byte>, width: nat, height: nat) returns (call: Option<RenderCall>)
      ensures call == Rendered(currentFilter, currentColorMode, useDetailedChars, rgba, width, height)
    {
      var processedRgba := rgba;
      if currentFilter == ContrastFilter {
        if |rgba| % 4 != 0 {
          return None;
        }
        processedRgba := ApplyContrast(rgba, width, height, ContrastAmount);
      }
      var gridWidth := width / BlockSize;
      var gridHeight := height / BlockSize;
      if currentFilter == EdgeFilter {
        var asciiBytes := ApplyEdgeDetection(processedRgba, width, height, BlockSize);
        call := Some(RenderCall(EdgeBlocks(asciiBytes), gridWidth, gridHeight, Grayscale));
      } else {
        var processed := ProcessFrameWithColor(processedRgba, width, height, BlockSize, useDetailedChars);
        FrameShape(processedRgba, width, height, BlockSize, useDetailedChars);
        var blockData := ZipBlocks(processed);
        call := Some(RenderCall(blockData, gridWidth, gridHeight, currentColorMode));
      }
    }

    /** `exportAsText`: None with no frame loaded; otherwise the glyphs of the
        raw frame, `gridWidth` per line, each line ending in a newline. */
    method ExportAsText() returns (text: Option<string>)
      ensures currentFrameData.None? ==> text == None
      ensures currentFrameData.Some? ==> text == Some(ExportedText(currentFrameData.value, useDetailedChars))
    {
      if currentFrameData.None? {
        return None;
      }
      var fd := currentFrameData.value;
      var gridWidth := fd.width / BlockSize;
      var gridHeight := fd.height / BlockSize;
      var processed := ProcessFrameWithColor(fd.data, fd.width, fd.height, BlockSize, useDetailedChars);
      var asciiBytes := processed.chars;
      ghost var lines := seq(gridHeight, (y: nat) => TextLine(asciiBytes, gridWidth, y));
      var s := "";
      var y := 0;
      while y < gridHeight
        invariant 0 <= y <= gridHeight
        invariant s == Flatten(lines[..y])
      {
        var line := AppendLine(asciiBytes, gridWidth, y);
        FlattenStep(lines, y);
        s := s + line;
        y := y + 1;
      }
      assert lines[..gridHeight] == lines;
      return Some(s);
    }

    /** `setFilter`: the new filter, then a re-render of the loaded frame. */
    method SetFilter(filter: Filter) returns (call: Option<RenderCall>)
      modifies this
      ensures currentFilter == filter
      ensures currentColorMode == old(currentColorMode) && useDetailedChars == old(useDetailedChars)
      ensures currentFrameData == old(currentFrameData)
      ensures call == Rerendered()
    {
      currentFilter := filter;
      call := Reprocess();
    }

    /** `setColorMode`: the new mode, then a re-render of the loaded frame. */
    method SetColorMode(mode: ColorMode) returns (call: Option<RenderCall>)
      modifies this
      ensures currentColorMode == mode
      ensures currentFilter == old(currentFilter) && useDetailedChars == old(useDetailedChars)
      ensures currentFrameData == old(currentFrameData)
      ensures call == Rerendered()
    {
      currentColorMode := mode;
      call := Reprocess();
    }

    /** `toggleDetail`: switch ramps, then a re-render of the loaded frame. */
    method ToggleDetail() returns (call: Option<RenderCall>)
      modifies this
      ensures useDetailedChars == !old(useDetailedChars)
      ensures currentFilter == old(currentFilter) && currentColorMode == old(currentColorMode)
      ensures currentFrameData == old(currentFrameData)
      ensures call == Rerendered()
    {
      useDetailedChars := !useDetailedChars;
      call := Reprocess();
    }

    /** Toggling the ramp twice restores the page's settings and renders as
        before. */
    method ToggleDetailTwice() returns (call: Option<RenderCall>)
      modifies this
      ensures useDetailedChars == old(useDetailedChars)
      ensures currentFilter == old(currentFilter) && currentColorMode == old(currentColorMode)
      ensures currentFrameData == old(currentFrameData)
      ensures call == old(Rerendered())
    {
      var _ := ToggleDetail();
      call := ToggleDetail();
    }

    /** `img.onload` of an upload: keep the frame and render it. */
    method LoadFrame(data: seq<Byte>, width: nat, height: nat) returns (call: Option<RenderCall>)
      modifies this
      ensures currentFrameData == Some(FrameData(data, width, height))
      ensures currentFilter == old(currentFilter) && currentColorMode == old(currentColorMode)
      ensures useDetailedChars == old(useDetailedChars)
      ensures call == Rendered(currentFilter, currentColorMode, useDetailedChars, data, width, height)
    {
      currentFrameData := Some(FrameData(data, width, height));
      call := ProcessFrameData(data, width, height);
    }

    /** The `if (this.currentFrameData)` re-render shared by the setters. */
    method Reprocess() returns (call: Option<RenderCall>)
      ensures call == Rerendered()
    {
      if currentFrameData.None? {
        return None;
      }
      var fd := currentFrameData.value;
      call := ProcessFrameData(fd.data, fd.width, fd.height);
    }
  }

  /** The `blockData.push` loop of the colour path. */
  method ZipBlocks(processed: ProcessedFrame) returns (blockData: seq<Block>)
    requires |processed.colors| == 3 * |processed.chars|
    ensures blockData == ColorBlocks(processed)
  {
    ghost var spec := ColorBlocks(processed);
    var asciiBytes, colorBytes := processed.chars, processed.colors;
    blockData := [];
    var i := 0;
    while i < |asciiBytes|
      invariant 0 <= i <= |asciiBytes|
      invariant blockData == spec[..i]
    {
      var block := Block(asciiBytes[i], colorBytes[i * 3], colorBytes[i * 3 + 1], colorBytes[i * 3 + 2]);
      assert spec[..i + 1] == spec[..i] + [block];
      blockData := blockData + [block];
      i := i + 1;
    }
    assert spec[..|asciiBytes|] == spec;
  }

  /** The column loop of one line of the export. */
  method AppendLine(chars: seq<Byte>, gw: nat, y: nat) returns (line: string)
    ensures line == TextLine(chars, gw, y)
  {
    ghost var glyphs := seq(gw, (x: nat) => CharAt(chars, y * gw + x));
    line := "";
    var x := 0;
    while x < gw
      invariant 0 <= x <= gw
      invariant line == glyphs[..x]
    {
      var idx := y * gw + x;
      var c := if idx < |chars| then chars[idx] as char else 0 as char;
      assert glyphs[x] == CharAt(chars, idx) == c;
      assert glyphs[..x + 1] == glyphs[..x] + [c];
      line := line + [c];
      x := x + 1;
    }
    assert glyphs[..gw] == glyphs;
    line := line + "\n";
  }
}
