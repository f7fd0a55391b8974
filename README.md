# askii image-to-ASCII core, modelled in Dafny

askii turns camera frames and uploaded images into ASCII art in the browser.
This project models the part of it that computes. That part has three pieces:

- **The WebAssembly engine** (`src/wasm/src/lib.rs`), with four operations:
  - `process_frame_with_color` splits an RGBA frame into square blocks. For each block it emits the glyph of the block's mean gray, taken from one of two ramps, and the block's mean colour.
  - `apply_edge_detection` emits, for each block, the glyph of the Sobel gradient magnitude at the block's centre.
  - `apply_contrast` stretches every colour channel away from 128.
  - `process_frame` is the single-channel variant of the block mapper.
- **The renderer** (`src/ascii/AsciiRenderer.ts`):
  - the colour of a cell in each render mode;
  - the 17-colour terminal palette of `getAnsiColor`;
  - the wheel zoom and the font-size clamp.
- **The studio page** (`src/pages/Studio.ts`):
  - the filter dispatch that feeds a frame through the engine;
  - the zip of the engine's glyph and colour buffers into the renderer's `blockData`;
  - the plain-text export;
  - the settings the buttons change.

The engine works by nested loops with mutable accumulators. The source has these loops, so each operation is a method with the same loops. Each method is proved equal to a specification function of its inputs; `Flatten` lays the grid of cells out row by row. The properties are then lemmas about those functions:

- the shape of the output;
- which block each cell comes from;
- that the `.min` clips of the block bounds, the `.min(255)` of the colour means, the `as u8` of the gray mean and the `.min(len - 1)` of the ramp index never change a value (the contrast clamp and the saturating `sqrt() as u8` of the edge filter do clip);
- how one-colour and black or white images render;
- that the glyphs of a frame depend only on the pixels of its complete blocks.

The studio's settings live in a class whose setters `modify` its fields. The renderer's zoom is a class field updated by the wheel method.

Two behaviours of the code are worth knowing.

- **Sobel axes.** `apply_edge_detection` offsets the sample's column by the kernel's row index and its row by the kernel's column index, so its `gx` is the textbook vertical response. The kernels are transposes of each other, so the magnitude and the glyph are those of the textbook gradient (`EdgeProps.EdgeCellTextbook`).
- **Vertical boundaries.** The window is three pixels wide around the block's centre, at offset `block_size / 2`. For a block size of 3 or more, such as the page's 8, the window lies inside its own block (`EdgeProps.WindowInsideBlock`). So a hard vertical boundary that falls on a block edge is never seen by any window, and it does not yield dense glyphs. With a block size of 1 or 2 the window reaches into the next block (`EdgeProps.WindowStraddlesSmallBlock`). The model follows the code.

## Model

| member | source | states |
|---|---|---|
| Image.FullBlockFits | src/wasm/src/lib.rs:31-32 | block i of the `n / bs` full blocks ends at or before n, so the `.min(width)` and `.min(height)` of the block bounds never clip |
| Image.CellIndexInGrid | src/wasm/src/lib.rs:44-45 | cell `y * gw + x` of column x < gw and row y < gh lies in the `gw * gh` output |
| Image.FlattenStep | src/wasm/src/lib.rs:44-45 | emitting one more row of cells appends that row to the row-major output |
| Image.FlattenLength | src/wasm/src/lib.rs:33 | rows of n cells each lay out as `rows * n` cells |
| Image.FlattenAt | src/wasm/src/lib.rs:44-45 | cell j of row i of the grid is element `i * n + j` of the output |
| Image.FlattenIn | src/wasm/src/lib.rs:44-45 | every element of the output comes from one of the rows |
| Ramp.SelectRamp | src/wasm/src/lib.rs:3-4 | `use_detailed_chars` picks the 70-glyph ramp, otherwise the 10-glyph one; both start with ' ' and end with '$' or '@' |
| Ramp.RampIndex | src/wasm/src/lib.rs:88-89 | the glyph index for a mean brightness is below the ramp length, 0 for black and the last index for white |
| Ramp.RampIndexUnclamped | src/wasm/src/lib.rs:88-89 | the `.min(len - 1)` after `avg * (len - 1) / 255` never clips |
| Ramp.RampIndexMonotone | src/wasm/src/lib.rs:88-89 | a brighter block never gets a sparser glyph |
| Ramp.GlyphEnds | src/wasm/src/lib.rs:3-4 | in both ramps black maps to ' ' and white to the densest glyph |
| ColorFrame.Gray | src/wasm/src/lib.rs:75 | the per-pixel gray `(3r + 6g + b) / 10` lies between the smallest and largest channel and equals the channel of a gray pixel |
| ColorFrame.RowInBuffer | src/wasm/src/lib.rs:59-64 | in a complete `width * height * 4` buffer every pixel of a row inside the image is in bounds |
| ColorFrame.SumRow | src/wasm/src/lib.rs:60-78 | the column loop adds exactly the in-bounds pixels of the row (`PixelSums` of each), skipping those with `idx + 3 >= len` |
| ColorFrame.SumBlock | src/wasm/src/lib.rs:51-79 | the row loop yields the sums and count of the block's in-bounds pixels |
| ColorFrame.BlockOutput | src/wasm/src/lib.rs:46-100 | a block emits `CellChar`, the glyph of its mean gray, and `CellColors`, its mean colour (`CellColor` per channel), or ' ' on black when no pixel was counted |
| ColorFrame.EmitRow | src/wasm/src/lib.rs:45-101 | one grid row appends its glyphs to `chars` and its colour triples to `colors` |
| ColorFrame.ProcessFrameWithColor | src/wasm/src/lib.rs:24-105 | the result is the row-major frame of block glyphs and colour triples |
| ColorFrameProps.BlocksRect | src/wasm/src/lib.rs:31-32 | the block grid is `height / bs` rows of `width / bs` blocks |
| ColorFrameProps.GridRows | src/wasm/src/lib.rs:89-99 | every glyph row has gw glyphs and every colour row `3 * gw` bytes |
| ColorFrameProps.FrameShape | src/wasm/src/lib.rs:31-34 | the frame holds `(height / bs) * (width / bs)` glyphs and three colour bytes per glyph |
| ColorFrameProps.FrameAt | src/wasm/src/lib.rs:44-100 | glyph `y * gw + x` and colour bytes `3k..3k + 2` come from the sums of block (x, y) |
| ColorFrameProps.GridCharAt | src/wasm/src/lib.rs:89 | glyph `y * gw + x` of the layout is that of block x of row y |
| ColorFrameProps.GridColorAt | src/wasm/src/lib.rs:92-99 | colour byte `3 * (y * gw + x) + c` of the layout is channel c of block x of row y |
| ColorFrameProps.BlockIsFull | src/wasm/src/lib.rs:46-49 | inside the grid every block spans exactly `bs` by `bs` pixels |
| ColorFrameProps.RowBounded | src/wasm/src/lib.rs:66-76 | a row's sums are at most 255 per counted pixel |
| ColorFrameProps.RegionBounded | src/wasm/src/lib.rs:58-79 | a block's sums are at most 255 per counted pixel |
| ColorFrame.Mean | src/wasm/src/lib.rs:82-85 | a mean never exceeds `sum / count`, and for a mean of bytes the `.min(255)` never changes it |
| ColorFrameProps.BlockMeansExact | src/wasm/src/lib.rs:82-85 | each of the four means of a block is the exact truncated quotient `sum / count` |
| ColorFrameProps.RowCount | src/wasm/src/lib.rs:60-77 | a row whose pixels all lie in the buffer counts every one of them |
| ColorFrameProps.RegionCount | src/wasm/src/lib.rs:58-79 | with a complete buffer a region counts all of its pixels |
| ColorFrameProps.FullBufferCount | src/wasm/src/lib.rs:42-79 | with a complete buffer every block counts `bs * bs` pixels, the unused `pixels_per_block` |
| ColorFrameProps.PixelUniform | src/wasm/src/lib.rs:64-76 | in a one-colour buffer a pixel adds that colour, or nothing past the end |
| ColorFrameProps.ScaledPlus | src/wasm/src/lib.rs:70-76 | adding two sums of one colour keeps them that colour times the count |
| ColorFrameProps.RowUniform | src/wasm/src/lib.rs:60-78 | in a one-colour buffer a row's sums are the colour times the count |
| ColorFrameProps.RegionUniform | src/wasm/src/lib.rs:58-79 | in a one-colour buffer a block's sums are the colour times the count |
| ColorFrameProps.MeanScaled | src/wasm/src/lib.rs:82-85 | the mean of c copies of v is v |
| ColorFrameProps.UniformCell | src/wasm/src/lib.rs:81-100 | in a one-colour image a counted block shows the glyph of the colour's gray in that colour, an empty block ' ' on black |
| ColorFrameProps.UniformFrame | src/wasm/src/lib.rs:24-105 | every cell of a complete one-colour frame has the glyph of its gray and the colour itself |
| ColorFrameProps.BlackFrame | src/wasm/src/lib.rs:24-105 | a black image renders as spaces on black, whatever the buffer length |
| ColorFrameProps.WhiteFrame | src/wasm/src/lib.rs:24-105 | a complete white image renders as '@' in white, or '$' with the detailed ramp |
| ColorFrameProps.RowLocal | src/wasm/src/lib.rs:60-78 | a row's sums depend only on that row's pixels |
| ColorFrameProps.RegionLocal | src/wasm/src/lib.rs:58-79 | a region's sums depend only on its pixels |
| ColorFrameProps.AreaLocal | src/wasm/src/lib.rs:58-79 | a region inside an area where two buffers agree has the same sums in both |
| ColorFrameProps.FullBlockInArea | src/wasm/src/lib.rs:31-49 | every full block ends inside the covered `(n / bs) * bs` pixels |
| ColorFrameProps.BlockLocal | src/wasm/src/lib.rs:46-79 | a block's sums depend only on the pixels of the complete blocks |
| ColorFrameProps.FrameLocal | src/wasm/src/lib.rs:24-105 | partial blocks at the right and bottom are dropped: two frames that agree on the covered area give the same output |
| Edge.Luma | src/wasm/src/lib.rs:156 | `(299r + 587g + 114b) / 1000` lies between the smallest and largest channel and equals the channel of a gray pixel |
| Edge.Clamp | src/wasm/src/lib.rs:142-148 | `.max(0).min(hi)` lies in `[0, hi]` and leaves in-range values alone |
| Edge.Window | src/wasm/src/lib.rs:140-148 | the nine samples around a centre form a 3 by 3 window; each is `Sample` at the source's swapped `ky`/`kx` offsets, read through `ClampedLuma` at the clamped coordinates |
| Edge.ResponseExpand | src/wasm/src/lib.rs:158-159 | a kernel's response is the sum of its nine products with the window |
| Edge.RowDotExpand | src/wasm/src/lib.rs:158-159 | one kernel row's contribution is the sum of its three products |
| Edge.ISqrtIsRoot | src/wasm/src/lib.rs:165 | the integer square root r of v satisfies `r * r <= v < (r + 1) * (r + 1)` |
| Edge.Magnitude | src/wasm/src/lib.rs:165 | the magnitude is the floor of the square root of `gx^2 + gy^2`, saturated at 255, and 0 when there is no gradient |
| Edge.EdgeCell | src/wasm/src/lib.rs:131-167 | the glyph of each block, taken from the Sobel window at the block's centre, is one of the ten glyphs of `ASCII_CHARS` |
| Ramp.CompactGlyph | src/wasm/src/lib.rs:166-167 | the glyph `ASCII_CHARS[v * 9 / 255]` written by the edge filter and the grayscale frame is always one of the ten glyphs |
| Edge.ReadSample | src/wasm/src/lib.rs:142-156 | a sample inside the buffer yields the luma of the clamped neighbour; one past its end yields nothing and counts as 0 |
| Edge.SobelRow | src/wasm/src/lib.rs:141-161 | the kx loop adds one kernel row's products to `gx` and `gy` |
| Edge.SobelAt | src/wasm/src/lib.rs:136-162 | the ky and kx loops compute both Sobel responses of the window |
| Edge.EdgeRow | src/wasm/src/lib.rs:132-168 | one grid row appends the edge glyph of each of its blocks |
| Edge.ApplyEdgeDetection | src/wasm/src/lib.rs:108-171 | the result is the row-major frame of edge glyphs |
| EdgeProps.EdgeRowsShape | src/wasm/src/lib.rs:114-116 | the edge grid has `height / bs` rows of `width / bs` glyphs |
| EdgeProps.EdgeFrameLength | src/wasm/src/lib.rs:114-116 | the result holds `(height / bs) * (width / bs)` glyphs |
| EdgeProps.EdgeFrameAt | src/wasm/src/lib.rs:131-168 | glyph `y * gw + x` is the edge glyph of block (x, y) |
| Ramp.CompactGlyphIsGlyph | src/wasm/src/lib.rs:235-236 | the unclamped index never exceeds 9, so the glyph is the ramp glyph of the value: ' ' for 0 and '@' for 255 |
| EdgeProps.EdgeFrameInRamp | src/wasm/src/lib.rs:108-171 | every glyph of the result is one of `ASCII_CHARS` |
| EdgeProps.CenterInImage | src/wasm/src/lib.rs:133-134 | the centre of every block lies inside the image |
| EdgeProps.WindowInsideBlock | src/wasm/src/lib.rs:133-134 | for a block size of 3 or more, the window's three columns and rows lie inside the block |
| EdgeProps.WindowStraddlesSmallBlock | src/wasm/src/lib.rs:133-134 | for block size 1 or 2, the window of every block g reads the first column (or row) of block g + 1 |
| EdgeProps.FlatWindow | src/wasm/src/lib.rs:119-129 | a window of nine equal samples has zero response to both kernels |
| EdgeProps.FlatIsBlank | src/wasm/src/lib.rs:136-167 | a flat window gives the glyph ' ' |
| EdgeProps.UniformLuma | src/wasm/src/lib.rs:142-156 | in a complete one-colour image every sample is that colour's luma |
| EdgeProps.UniformWindow | src/wasm/src/lib.rs:140-161 | in a complete one-colour image every window is flat |
| EdgeProps.UniformIsBlank | src/wasm/src/lib.rs:108-171 | a complete one-colour image has no edges: every glyph is ' ' |
| EdgeProps.TransposeSwaps | src/wasm/src/lib.rs:119-129 | the kernels are transposes, so transposing the window swaps the two responses |
| EdgeProps.ResponsesTransposed | src/wasm/src/lib.rs:140-159 | the source's `gx` is the textbook `gy` and its `gy` the textbook `gx` |
| EdgeProps.EdgeCellTextbook | src/wasm/src/lib.rs:131-167 | each block's glyph is that of the textbook Sobel magnitude at its centre |
| Contrast.ClampByte | src/wasm/src/lib.rs:185-187 | `.max(0.0).min(255.0)` lies in `[0, 255]` and leaves in-range values alone |
| Contrast.Stretch | src/wasm/src/lib.rs:185-187 | a stretched channel is 0 when the linear value is at most 0, 255 when it is at least 255, and otherwise that value truncated |
| Contrast.Quad | src/wasm/src/lib.rs:185-192 | each pixel yields four bytes and keeps its alpha |
| Contrast.Quads | src/wasm/src/lib.rs:184 | the loop steps through `len / 4` whole pixels |
| Contrast.ApplyContrast | src/wasm/src/lib.rs:175-196 | the result is the stretched pixels in order, alpha copied |
| ContrastProps.QuadsShape | src/wasm/src/lib.rs:189-192 | every processed pixel contributes four bytes |
| ContrastProps.ContrastLength | src/wasm/src/lib.rs:180-196 | the output is as long as the input |
| ContrastProps.ContrastAt | src/wasm/src/lib.rs:185-192 | byte c of pixel p is the stretched channel, or the copied alpha for c = 3 |
| Contrast.Factor | src/wasm/src/lib.rs:181 | the factor is exactly 1 for contrast 0, positive for contrast in (-255, 259), and at least 1 for contrast in [0, 259) |
| ContrastProps.StretchOne | src/wasm/src/lib.rs:185 | factor 1 leaves a channel unchanged |
| ContrastProps.ContrastZeroIsIdentity | src/wasm/src/lib.rs:175-196 | with contrast 0 the whole buffer comes back unchanged |
| ContrastProps.MidpointFixed | src/wasm/src/lib.rs:185 | 128 is mapped to 128 whatever the factor |
| ContrastProps.StretchMonotone | src/wasm/src/lib.rs:185 | a non-negative factor keeps the order of channel values |
| ContrastProps.StretchUp | src/wasm/src/lib.rs:185 | a factor of at least 1 never lowers a channel at or above 128 |
| ContrastProps.StretchDown | src/wasm/src/lib.rs:185 | a factor of at least 1 never raises a channel at or below 128 |
| ContrastProps.StretchAway | src/wasm/src/lib.rs:185-187 | a factor of at least 1 moves every channel away from 128 or leaves it |
| GrayFrame.SumGrayRow | src/wasm/src/lib.rs:220-226 | the column loop adds exactly the in-bounds bytes of the row |
| GrayFrame.SumGrayBlock | src/wasm/src/lib.rs:211-227 | the row loop yields the sum and count of the block's in-bounds bytes |
| GrayFrame.GrayBlockChar | src/wasm/src/lib.rs:211-236 | a block emits the glyph of its average, 0 when nothing was counted |
| GrayFrame.GrayRow | src/wasm/src/lib.rs:210-237 | one grid row appends the glyph of each of its blocks |
| GrayFrame.ProcessFrame | src/wasm/src/lib.rs:199-241 | the result is the row-major frame of block glyphs |
| GrayFrameProps.GrayRowsShape | src/wasm/src/lib.rs:205-207 | the grid has `height / bs` rows of `width / bs` glyphs |
| GrayFrameProps.GrayFrameLength | src/wasm/src/lib.rs:205-207 | the result holds `(height / bs) * (width / bs)` glyphs |
| GrayFrameProps.GrayFrameAt | src/wasm/src/lib.rs:209-237 | glyph `y * gw + x` is the glyph of the average of block (x, y) |
| GrayFrameProps.GrayFrameInRamp | src/wasm/src/lib.rs:199-241 | every glyph of the result is one of `ASCII_CHARS` |
| GrayFrameProps.RowBounded | src/wasm/src/lib.rs:220-226 | a row's sum is at most 255 per counted byte |
| GrayFrameProps.RegionBounded | src/wasm/src/lib.rs:219-227 | a block's sum is at most 255 per counted byte |
| GrayFrame.Average | src/wasm/src/lib.rs:229-233 | an empty block averages 0; for a mean of bytes the `as u8` (`AsU8`, the low eight bits) never wraps, so the average is exactly `sum / count` |
| GrayFrameProps.AverageExact | src/wasm/src/lib.rs:229-233 | every block's average is the exact truncated quotient |
| GrayFrameProps.RowPastEnd | src/wasm/src/lib.rs:221-222 | a row starting past the buffer's end counts nothing |
| GrayFrameProps.RegionPastEnd | src/wasm/src/lib.rs:219-227 | a region whose first row starts past the end counts nothing |
| GrayFrameProps.BlockPastEndIsBlank | src/wasm/src/lib.rs:229-236 | a block whose first row starts at or past the end of the buffer averages 0 and shows ' ' |
| GrayFrameProps.RowCount | src/wasm/src/lib.rs:220-226 | a row inside the buffer counts all of its bytes |
| GrayFrameProps.RegionCount | src/wasm/src/lib.rs:219-227 | with a complete buffer a region counts all of its bytes |
| GrayFrameProps.FullBufferCount | src/wasm/src/lib.rs:211-227 | with a complete `width * height` buffer every block counts `bs * bs` bytes |
| GrayFrameProps.ScaledPlus | src/wasm/src/lib.rs:223-224 | adding two tallies of one gray level keeps them that level times the count |
| GrayFrameProps.RowScaled | src/wasm/src/lib.rs:220-226 | in a one-level buffer a row's sum is the level times the count |
| GrayFrameProps.RegionScaled | src/wasm/src/lib.rs:219-227 | in a one-level buffer a block's sum is the level times the count |
| GrayFrameProps.MeanOfFlat | src/wasm/src/lib.rs:229-230 | the average of c bytes of level v is v |
| GrayFrameProps.FlatBlock | src/wasm/src/lib.rs:211-236 | in a one-level buffer each counted block shows that level's glyph, an empty one ' ' |
| Renderer.GetAnsiColor | src/ascii/AsciiRenderer.ts:199-240 | the colour is always one of the 17 literals; the fallback `'#666666'` is unreachable |
| Renderer.SaturationTest | src/ascii/AsciiRenderer.ts:207-210 | for a positive maximum, `saturation < 0.2` exactly when `5 * (max - min) < max` |
| Renderer.AnsiMatchesReference | src/ascii/AsciiRenderer.ts:199-240 | the real-valued classifier equals one on integers only, with thresholds on the channel sum |
| Renderer.DarkIff | src/ascii/AsciiRenderer.ts:200-202 | `'#1a1a1a'` exactly when `r + g + b < 192` |
| Renderer.WhiteIff | src/ascii/AsciiRenderer.ts:200-203 | `'#ffffff'` exactly when `r + g + b > 660` |
| Renderer.GrayBand | src/ascii/AsciiRenderer.ts:205-214 | in the middle band a gray shade exactly for `5 * (max - min) < max`: `#555555` below sum 300, `#dddddd` from 480 |
| Renderer.EqualChannelsAreGray | src/ascii/AsciiRenderer.ts:205-214 | a colour with equal channels is shown black, white or a gray shade |
| Renderer.HueOrder | src/ascii/AsciiRenderer.ts:218-237 | the hue is that of the largest channel, ties going to red, then green |
| Renderer.BrightIff | src/ascii/AsciiRenderer.ts:216-237 | the bright variant is chosen exactly for `r + g + b > 420` |
| Renderer.CellFill | src/ascii/AsciiRenderer.ts:176-188 | white in grayscale mode, the block's colour in colour mode, a palette colour in ANSI mode |
| Renderer.FontSize | src/ascii/AsciiRenderer.ts:164 | the font size lies in `[6, 100]` and is the character height when that is in range |
| Renderer.ClampZoom | src/ascii/AsciiRenderer.ts:28 | the zoom lies in `[0.3, 10]`, in-range values are kept and the others go to the nearer end |
| Renderer.WheelFactor | src/ascii/AsciiRenderer.ts:27 | a positive `deltaY` zooms out and any other delta zooms in, by a factor between 0.9 and 1.1 |
| Renderer.AsciiRenderer.constructor | src/ascii/AsciiRenderer.ts:4-5 | zoom 1 and font size 10, the zoom in range |
| Renderer.AsciiRenderer.OnWheel | src/ascii/AsciiRenderer.ts:25-29 | the zoom becomes the clamp of itself times 0.9 or 1.1 and stays in `[0.3, 10]` |
| Studio.StudioPage.constructor | src/pages/Studio.ts:12-16 | grayscale mode, no filter, compact ramp, no frame |
| Studio.StudioPage.ProcessFrameData | src/pages/Studio.ts:311-375 | the call handed to the renderer is the filter dispatch of the frame, or nothing when the contrast pass traps |
| Studio.Rendered | src/pages/Studio.ts:311-375 | a rendered call has the `width / 8` by `height / 8` grid, and the edge path forces grayscale while the other paths keep the page's mode |
| Studio.Processed | src/pages/Studio.ts:319-324 | only the contrast filter changes the frame, and on a buffer of whole pixels the contrast pass keeps its length |
| Studio.EdgeBlocks | src/pages/Studio.ts:333-338 | one block per edge glyph, glyph k drawn in white |
| Studio.ColorBlocks | src/pages/Studio.ts:353-361 | one block per glyph, block k carrying glyph k and colour bytes 3k to 3k + 2 |
| Studio.CharAt | src/pages/Studio.ts:395 | `String.fromCharCode(asciiBytes[idx])`: the glyph for an index inside the buffer, NUL past its end |
| Studio.ZipBlocks | src/pages/Studio.ts:353-361 | the colour path's `blockData` pairs glyph i with colour bytes `3i`, `3i + 1` and `3i + 2` |
| Studio.StudioPage.ExportAsText | src/pages/Studio.ts:377-398 | nothing without a frame; otherwise the text of the raw frame's glyphs, whatever the filter |
| Studio.AppendLine | src/pages/Studio.ts:393-397 | one line of the export is `gridWidth` glyphs and a newline |
| Studio.StudioPage.SetFilter | src/pages/Studio.ts:186-194 | only the filter changes, and the loaded frame is rendered again |
| Studio.StudioPage.SetColorMode | src/pages/Studio.ts:196-205 | only the colour mode changes, and the loaded frame is rendered again |
| Studio.StudioPage.ToggleDetail | src/pages/Studio.ts:177-184 | the ramp flag flips, nothing else changes, and the loaded frame is rendered again |
| Studio.StudioPage.ToggleDetailTwice | src/pages/Studio.ts:177-184 | toggling twice restores every setting and renders what was rendered before |
| Studio.StudioPage.LoadFrame | src/pages/Studio.ts:288-302 | an uploaded image becomes the current frame and is rendered under the current settings |
| Studio.StudioPage.Reprocess | src/pages/Studio.ts:181-183 | the setters' re-render: nothing without a frame, else the frame under the settings |
| StudioProps.TextLines | src/pages/Studio.ts:392-398 | the export has gridHeight lines of `gridWidth + 1` characters |
| StudioProps.ExportLength | src/pages/Studio.ts:391-398 | the export has `gridHeight * (gridWidth + 1)` characters |
| StudioProps.ExportAt | src/pages/Studio.ts:392-397 | column x of line y is `asciiBytes[y * gridWidth + x]`, and each line ends in a newline |
| StudioProps.ExportedCell | src/pages/Studio.ts:384-396 | column x of line y is the glyph of block (x, y) of the raw frame; a read past the buffer never happens |
| StudioProps.OnlyContrastFails | src/pages/Studio.ts:321-324 | nothing is rendered exactly when the contrast filter meets a buffer that is not whole pixels |
| StudioProps.ColorBlocksAt | src/pages/Studio.ts:354-360 | block `y * gw + x` of the colour path is glyph k and colour triple k of the engine |
| StudioProps.ColorCall | src/pages/Studio.ts:349-370 | without the edge filter the renderer gets the colour engine's blocks, the grid size and the page's mode |
| StudioProps.ColorPath | src/pages/Studio.ts:319-370 | one block per cell; block (x, y) has the glyph and mean colour of that block of the frame, stretched when the contrast filter is on |
| StudioProps.EdgeCall | src/pages/Studio.ts:329-347 | with the edge filter the renderer gets the edge engine's glyphs of the unfiltered frame in white, in grayscale mode |
| StudioProps.EdgeBlocksAt | src/pages/Studio.ts:333-338 | edge block k is glyph k in white |
| StudioProps.EdgePath | src/pages/Studio.ts:329-347 | one block per cell, block (x, y) the edge glyph of that block, drawn in white |
| StudioProps.ExportIsUnfiltered | src/pages/Studio.ts:387-396 | each exported glyph is the glyph the unfiltered colour path hands the renderer for that cell |

## Left out

- Canvas drawing is not modelled: canvas sizing, centring offsets, `fillText`, the pan drag and `render`. The model keeps only the cell colour of each mode (`Renderer.CellFill`).
- DOM and I/O are not modelled: the camera, file upload, toasts, the Blob download, the `requestAnimationFrame` loop, `calculateTargetDimensions` and the zoom callback's re-render.
- Several helper methods do not exist in the source: `ColorFrame.SumRow`, `SumBlock`, `BlockOutput`, `EmitRow`, `Edge.ReadSample`, `SobelRow`, `SobelAt`, `EdgeRow`, `GrayFrame.SumGrayRow`, `SumGrayBlock`, `GrayBlockChar`, `GrayRow`, `Studio.ZipBlocks`, `AppendLine` and `StudioPage.Reprocess`.
  - Each except `Reprocess` is one loop or loop body of the source pulled out into its own method, so that each proof stays small.
  - `Reprocess` is the `if (this.currentFrameData) { this.processFrameData(...) }` block that the three setters repeat (src/pages/Studio.ts:181-183, 191-193 and 202-204).
  - The loops and their order are unchanged.
- ColorFrame.ProcessFrameWithColor: the block sums are unbounded. The source's `u32` sums could wrap only for blocks of more than 16 million pixels.
- GrayFrame.ProcessFrame: the block sum is unbounded. The source's `u32` sum could wrap only for blocks of more than 16 million pixels.
- ColorFrame.ProcessFrameWithColor, Edge.ApplyEdgeDetection, GrayFrame.ProcessFrame: the buffer indices `y * width * 4 + x * 4`, `(py * width + px) * 4` and `y * width + x` are unbounded integers (`RowStart`, `PixelOffset`, `GrayRowStart`). In the source they are `usize`, 32 bits on wasm32, and the wrap-around is not modelled. It cannot happen for the page's complete `getImageData` buffers, which hold fewer than 2^32 bytes. It could happen for a short buffer passed with much larger dimensions, where the source would then read bytes that the model counts as past the end.
- Engine methods require `blockSize > 0`. With a block size of 0 the source divides by zero and panics.
- Contrast.ApplyContrast: computes over exact reals rather than `f32`.
  - It requires a contrast other than 259. There the source's `f32` division by zero gives an infinite factor rather than a trap. The channels then come out 255 above 128 and 0 at or below 128, since `NaN.max(0.0)` is 0. The model does not cover that case.
  - It requires a buffer of whole pixels; the source indexes past the end and panics on any other length. `StudioProps.OnlyContrastFails` models that panic, which the page catches, as nothing being rendered.
- Edge.ApplyEdgeDetection: models the `f64` square root and its `as u8` as the integer square root saturated at 255.
  - The two agree because `gx^2 + gy^2` is at most about two million. That is far below the range where `f64` square roots of integers are inexact.
  - This is argued, not proved.
  - A sample index past the buffer's end adds nothing, as in the source.
  - The `(width - 1)` of the clamp underflows only for a width of 0. Then the grid is empty and the clamp is never reached.
- Renderer.GetAnsiColor: computes the brightness and saturation as exact reals rather than `f64`.
  - Every threshold compares a ratio of small integers with a constant.
  - At these magnitudes rounding cannot cross any threshold; this is argued, not proved.
  - The channels are bytes, as every caller passes bytes of the engine or 255.
- Renderer.FontSize: takes the character height as given. The `targetHeight / gridHeight` of an empty grid is an infinity or NaN in the source, and that is not modelled.
- Renderer.AsciiRenderer.OnWheel: exact reals rather than `f64`. The zoom callback is not modelled. The pan offsets and drag state, which no model member reads, are not fields of the class.
- Studio.StudioPage.ProcessFrameData: the `targetWidth`/`targetHeight` layout and the renderer object itself are not modelled.
  - The result is the argument list of the one `renderWithColorAndDimensions` call.
  - The frame bytes are bytes, as the `Uint8Array` copy makes them.
- `String.fromCharCode` of a byte is modelled as the character with that code. The export's read past the end of `asciiBytes` is modelled as NUL; it never happens.
