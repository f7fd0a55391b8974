/** The logic of the canvas renderer (src/ascii/AsciiRenderer.ts): the colour
    of a cell in each render mode, the 17-colour terminal palette of
    `getAnsiColor`, the wheel zoom and the font-size clamp. The drawing
    itself (canvas size, centring, `fillText`) is not part of this model. */
module Renderer {
  import opened Image

  /** The three render modes of `renderWithColorAndDimensions`. */
  datatype ColorMode = Grayscale | Color | Ansi

  /** One entry of `blockData`: a glyph and the colour it is drawn in. */
  datatype Block = Block(ch: Byte, r: Byte, g: Byte, b: Byte)

  /** A `fillStyle`: a hex literal, or `rgb(r, g, b)`. */
  datatype Fill = Hex(code: string) | Rgb(r: Byte, g: Byte, b: Byte)

  /** The 17 colours `getAnsiColor` returns. */
  const Dark := "#1a1a1a"
  const White := "#ffffff"
  const GrayShades: set<string> := {"#555555", "#aaaaaa", "#dddddd"}
  const Reds: set<string> := {"#ffaa00", "#cc8800", "#ff5555", "#cc0000"}
  const Greens: set<string> := {"#55ffff", "#00cccc", "#55ff55", "#00cc00"}
  const Blues: set<string> := {"#ff55ff", "#cc00cc", "#5555ff", "#0000cc"}
  /** The bright variants, chosen in the coloured band when `mid` holds. */
  const Bright: set<string> := {"#ffaa00", "#ff5555", "#55ffff", "#55ff55", "#ff55ff", "#5555ff"}
  const Palette: set<string> := {Dark, White} + GrayShades + Reds + Greens + Blues

  function Max3(r: int, g: int, b: int): int { Max(r, Max(g, b)) }

  function Min3(r: int, g: int, b: int): int { Min(r, Min(g, b)) }

  /** `getAnsiColor`, in the source's own arithmetic: the brightness is the
      mean of the channels and the saturation `(max - min) / max`, both as
      reals. The last line is the source's fallback when no channel equals
      the maximum, which never happens. */
  function GetAnsiColor(r: Byte, g: Byte, b: Byte): (c: string)
    ensures c in Palette
  {
    var brightness := (r + g + b) as real / 3.0;
    if brightness < 64.0 then Dark
    else if brightness > 220.0 then White
    else
      var max, min := Max3(r, g, b), Min3(r, g, b);
      var saturation := if max == 0 then 0.0 else (max - min) as real / max as real;
      if saturation < 0.2 then
        if brightness < 100.0 then "#555555"
        else if brightness < 160.0 then "#aaaaaa"
        else "#dddddd"
      else
        var mid := brightness > 140.0;
        if r == max then
          if g > b + 20 then (if mid then "#ffaa00" else "#cc8800")
          else (if mid then "#ff5555" else "#cc0000")
        else if g == max then
          if b > r + 20 then (if mid then "#55ffff" else "#00cccc")
          else (if mid then "#55ff55" else "#00cc00")
        else if b == max then
          if r > g + 20 then (if mid then "#ff55ff" else "#cc00cc")
          else (if mid then "#5555ff" else "#0000cc")
        else if mid then "#aaaaaa" else "#666666"
  }

  /** The same classifier on integers only: each threshold on the mean is a
      threshold on the channel sum, the saturation test is
      `5 * (max - min) < max`, and the hue falls through red, green, blue. */
  function AnsiReference(r: Byte, g: Byte, b: Byte): string
  {
    var sum, max, min := r + g + b, Max3(r, g, b), Min3(r, g, b);
    if sum < 192 then Dark
    else if sum > 660 then White
    else if 5 * (max - min) < max then
      if sum < 300 then "#555555" else if sum < 480 then "#aaaaaa" else "#dddddd"
    else
      var mid := sum > 420;
      if r == max then
        if g > b + 20 then (if mid then "#ffaa00" else "#cc8800")
        else (if mid then "#ff5555" else "#cc0000")
      else if g == max then
        if b > r + 20 then (if mid then "#55ffff" else "#00cccc")
        else (if mid then "#55ff55" else "#00cc00")
      else
        if r > g + 20 then (if mid then "#ff55ff" else "#cc00cc")
        else (if mid then "#5555ff" else "#0000cc")
  }

  lemma MulLtReal(a: real, b: real, m: real)
    requires a < b && m > 0.0
    ensures a * m < b * m
  {}

  lemma MulLeReal(a: real, b: real, m: real)
    requires a <= b && m > 0.0
    ensures a * m <= b * m
  {}

  lemma DivLtIff(d: real, m: real, c: real)
    requires m > 0.0
    ensures d / m < c <==> d < c * m
  {
    var q := d / m;
    assert q * m == d;
    if q < c {
      MulLtReal(q, c, m);
    } else {
      MulLeReal(c, q, m);
    }
  }

  /** For a positive maximum, `(max - min) / max < 0.2` exactly when
      `5 * (max - min) < max`. */
  lemma SaturationTest(max: nat, min: nat)
    requires max > 0 && min <= max
    ensures ((max - min) as real / max as real < 0.2) <==> (5 * (max - min) < max)
  {
    var d, m := (max - min) as real, max as real;
    DivLtIff(d, m, 0.2);
    assert (5 * (max - min)) as real == 5.0 * d;
  }

  /** The real-valued classifier and the integer one agree on every colour:
      every threshold of `getAnsiColor` is an exact integer comparison. */
  lemma AnsiMatchesReference(r: Byte, g: Byte, b: Byte)
    ensures GetAnsiColor(r, g, b) == AnsiReference(r, g, b)
  {
    var sum, max, min := r + g + b, Max3(r, g, b), Min3(r, g, b);
    if 192 <= sum <= 660 {
      SaturationTest(max, min);
    }
  }

  /** `'#1a1a1a'` exactly for a channel sum below 192. */
  lemma DarkIff(r: Byte, g: Byte, b: Byte)
    ensures GetAnsiColor(r, g, b) == Dark <==> r + g + b < 192
  {
    AnsiMatchesReference(r, g, b);
  }

  /** `'#ffffff'` exactly for a channel sum above 660. */
  lemma WhiteIff(r: Byte, g: Byte, b: Byte)
    ensures GetAnsiColor(r, g, b) == White <==> r + g + b > 660
  {
    AnsiMatchesReference(r, g, b);
  }

  /** In the middle band a gray shade is chosen exactly for the weakly
      saturated colours, darkest below a sum of 300, lightest from 480. */
  lemma GrayBand(r: Byte, g: Byte, b: Byte)
    requires 192 <= r + g + b <= 660
    ensures var c, max := GetAnsiColor(r, g, b), Max3(r, g, b);
            (c in GrayShades <==> 5 * (max - Min3(r, g, b)) < max)
            && (c == "#555555" <==> c in GrayShades && r + g + b < 300)
            && (c == "#dddddd" <==> c in GrayShades && r + g + b >= 480)
  {
    AnsiMatchesReference(r, g, b);
  }

  /** A colour with three equal channels is shown black, white or gray. */
  lemma EqualChannelsAreGray(v: Byte)
    ensures GetAnsiColor(v, v, v) in {Dark, White} + GrayShades
  {
    AnsiMatchesReference(v, v, v);
  }

  /** In the coloured band the hue is that of the largest channel, with ties
      going to red, then green. */
  lemma HueOrder(r: Byte, g: Byte, b: Byte)
    requires 192 <= r + g + b <= 660 && 5 * (Max3(r, g, b) - Min3(r, g, b)) >= Max3(r, g, b)
    ensures var c, max := GetAnsiColor(r, g, b), Max3(r, g, b);
            (r == max ==> c in Reds)
            && (r < max && g == max ==> c in Greens)
            && (r < max && g < max ==> b == max && c in Blues)
  {
    AnsiMatchesReference(r, g, b);
  }

  /** In the coloured band the bright variant is chosen exactly for a channel
      sum above 420. */
  lemma BrightIff(r: Byte, g: Byte, b: Byte)
    requires 192 <= r + g + b <= 660 && 5 * (Max3(r, g, b) - Min3(r, g, b)) >= Max3(r, g, b)
    ensures GetAnsiColor(r, g, b) in Bright <==> r + g + b > 420
  {
    AnsiMatchesReference(r, g, b);
  }

  /** The `switch (mode)` of the drawing loop: white in grayscale mode, the
      block's own colour in colour mode, its palette colour in ANSI mode. */
  function CellFill(mode: ColorMode, block: Block): (f: Fill)
    ensures mode == Grayscale ==> f == Hex("#fff")
    ensures mode == Color ==> f == Rgb(block.r, block.g, block.b)
    ensures mode == Ansi ==> f.Hex? && f.code in Palette
  {
    match mode
    case Grayscale => Hex("#fff")
    case Color => Rgb(block.r, block.g, block.b)
    case Ansi => Hex(GetAnsiColor(block.r, block.g, block.b))
  }

  /** `Math.max(6, Math.min(100, charHeight))`. */
  function FontSize(charHeight: real): (size: real)
    ensures 6.0 <= size <= 100.0
    ensures 6.0 <= charHeight <= 100.0 ==> size == charHeight
  {
    if charHeight > 100.0 then 100.0 else if charHeight < 6.0 then 6.0 else charHeight
  }

  /** The wheel step: out by 0.9 for a positive `deltaY`, in by 1.1 otherwise. */
  function WheelFactor(deltaY: real): (k: real)
    ensures deltaY > 0.0 ==> k < 1.0
    ensures deltaY <= 0.0 ==> k > 1.0
    ensures 0.9 <= k <= 1.1
  {
    if deltaY > 0.0 then 0.9 else 1.1
  }

  /** `Math.max(0.3, Math.min(10, z))`. */
  function ClampZoom(z: real): (c: real)
    ensures 0.3 <= c <= 10.0
    ensures 0.3 <= z <= 10.0 ==> c == z
    ensures z > 10.0 ==> c == 10.0
    ensures z < 0.3 ==> c == 0.3
  {
    if z > 10.0 then 10.0 else if z < 0.3 then 0.3 else z
  }

  /** The renderer's zoom state. */
  class AsciiRenderer {
    var zoomLevel: real
    var fontSize: real

    /** The zoom stays within [0.3, 10]. */
    predicate ZoomInRange()
      reads this
    {
      0.3 <= zoomLevel <= 10.0
    }

    constructor ()
      ensures zoomLevel == 1.0 && fontSize == 10.0
      ensures ZoomInRange()
    {
      zoomLevel := 1.0;
      fontSize := 10.0;
    }

    /** The `wheel` listener: scale the zoom by the wheel factor and clamp. */
    method OnWheel(deltaY: real)
      modifies this
      ensures zoomLevel == ClampZoom(old(zoomLevel) * WheelFactor(deltaY))
      ensures fontSize == old(fontSize)
      ensures ZoomInRange()
    {
      var delta := if deltaY > 0.0 then 0.9 else 1.1;
      zoomLevel := ClampZoom(zoomLevel * delta);
    }
  }
}
