/** The two character ramps of the engine and the mapping from a mean
    brightness to a glyph (src/wasm/src/lib.rs, lines 3-4 and 88-89). */
module Ramp {
  import opened Image

  /** `ASCII_CHARS`: the bytes of " .:-=+*#%@", sparse to dense. */
  const AsciiChars: seq<Byte> := [32, 46, 58, 45, 61, 43, 42, 35, 37, 64]

  /** `ASCII_DETAILED`: the 70 bytes of
      " .'`^\",:;Il!i><~+_-?][}{1)(|\\/tfjrxnuvczXYUJCLQ0OZmwqpdbkhao*#MW&8%B@$". */
  const AsciiDetailed: seq<Byte> :=
    [32, 46, 39, 96, 94, 34, 44, 58, 59, 73] +
    [108, 33, 105, 62, 60, 126, 43, 95, 45, 63] +
    [93, 91, 125, 123, 49, 41, 40, 124, 92, 47] +
    [116, 102, 106, 114, 120, 110, 117, 118, 99, 122] +
    [88, 89, 85, 74, 67, 76, 81, 48, 79, 90] +
    [109, 119, 113, 112, 100, 98, 107, 104, 97, 111] +
    [42, 35, 77, 87, 38, 56, 37, 66, 64, 36]

  /** `b' '`, the glyph of an empty block. */
  const Space: Byte := 32

  /** `b'@'`, the densest glyph of the compact ramp. */
  const At: Byte := 64

  /** `b'$'`, the densest glyph of the detailed ramp. */
  const Dollar: Byte := 36

  /** The ramp chosen by `use_detailed_chars`. */
  function SelectRamp(useDetailed: bool): (ramp: seq<Byte>)
    ensures |ramp| == (if useDetailed then 70 else 10)
    ensures ramp[0] == Space
    ensures ramp[|ramp| - 1] == (if useDetailed then Dollar else At)
  {
    if useDetailed then AsciiDetailed else AsciiChars
  }

  /** `avg * (len - 1) / 255`, then `.min(len - 1)`: the index of the glyph
      for a mean brightness `avg` in a ramp of `len` glyphs. */
  function RampIndex(avg: Byte, len: nat): (i: nat)
    requires len >= 1
    ensures i < len
    ensures avg == 0 ==> i == 0
    ensures avg == 255 ==> i == len - 1
  {
    Min(avg * (len - 1) / 255, len - 1)
  }

  /** The `.min(len - 1)` never clips: the scaled index is already in range. */
  lemma RampIndexUnclamped(avg: Byte, len: nat)
    requires len >= 1
    ensures RampIndex(avg, len) == avg * (len - 1) / 255
  {
    MulLe(avg, 255, len - 1);
    assert avg * (len - 1) / 255 <= (255 * (len - 1)) / 255;
  }

  /** A brighter block never gets a sparser glyph. */
  lemma RampIndexMonotone(a: Byte, b: Byte, len: nat)
    requires len >= 1 && a <= b
    ensures RampIndex(a, len) <= RampIndex(b, len)
  {
    MulLe(a, b, len - 1);
    DivMonotone(a * (len - 1), b * (len - 1), 255);
  }

  lemma DivMonotone(x: nat, y: nat, d: nat)
    requires x <= y && d > 0
    ensures x / d <= y / d
  {
    if x / d > y / d {
      MulLe(y / d + 1, x / d, d);
    }
  }

  /** The glyph of a ramp for mean brightness `avg`. */
  function Glyph(avg: Byte, ramp: seq<Byte>): Byte
    requires |ramp| >= 1
  {
    ramp[RampIndex(avg, |ramp|)]
  }

  /** `ASCII_CHARS[v * 9 / 255]`: the compact-ramp glyph that both the
      grayscale frame and the edge filter write, without the `.min(9)` clamp. */
  function CompactGlyph(v: Byte): (c: Byte)
    ensures c in AsciiChars
  {
    AsciiChars[v * 9 / 255]
  }

  /** The unclamped index `v * 9 / 255` never passes 9, so the compact glyph is
      the ramp glyph of `v`: ' ' for 0 and '@' for 255. */
  lemma CompactGlyphIsGlyph(v: Byte)
    ensures v * 9 / 255 <= 9
    ensures CompactGlyph(v) == Glyph(v, AsciiChars)
    ensures CompactGlyph(0) == Space && CompactGlyph(255) == At
  {
    RampIndexUnclamped(v, |AsciiChars|);
  }

  /** Black maps to ' ' and white to the densest glyph, in both ramps. */
  lemma GlyphEnds(useDetailed: bool)
    ensures Glyph(0, SelectRamp(useDetailed)) == Space
    ensures Glyph(255, SelectRamp(useDetailed)) == (if useDetailed then Dollar else At)
  {}
}
