/** `apply_contrast` (src/wasm/src/lib.rs, lines 173-197): the linear contrast
    stretch `factor * (c - 128) + 128` of every R, G and B byte, clamped to
    [0, 255] and truncated, with alpha copied. The float arithmetic is
    modelled over the reals. */
module Contrast {
  import opened Image

  /** `(259 * (c + 255)) / (255 * (259 - c))`, the factor for contrast c:
      exactly 1 for contrast 0, positive strictly between -255 and 259, and at
      least 1 for a non-negative contrast below 259. */
  function Factor(c: real): (f: real)
    requires c != 259.0
    ensures c == 0.0 ==> f == 1.0
    ensures -255.0 < c < 259.0 ==> f > 0.0
    ensures 0.0 <= c < 259.0 ==> f >= 1.0
  {
    var num, den := 259.0 * (c + 255.0), 255.0 * (259.0 - c);
    var q := num / den;
    assert q * den == num;
    q
  }

  /** `.max(0.0).min(255.0)`. */
  function ClampByte(v: real): (c: real)
    ensures 0.0 <= c <= 255.0
    ensures 0.0 <= v <= 255.0 ==> c == v
  {
    if v < 0.0 then 0.0 else if v > 255.0 then 255.0 else v
  }

  /** One channel: stretched about 128, clamped, then cast with `as u8`, which
      truncates the non-negative value. */
  function Stretch(f: real, v: Byte): (r: Byte)
    ensures var x := f * (v as real - 128.0) + 128.0;
            (x <= 0.0 ==> r == 0) && (x >= 255.0 ==> r == 255)
            && (0.0 <= x <= 255.0 ==> r as real <= x < r as real + 1.0)
  {
    ClampByte(f * (v as real - 128.0) + 128.0).Floor
  }

  /** One RGBA pixel: three channels stretched, alpha copied. */
  function Quad(f: real, q: seq<Byte>): (r: seq<Byte>)
    requires |q| == 4
    ensures |r| == 4 && r[3] == q[3]
  {
    [Stretch(f, q[0]), Stretch(f, q[1]), Stretch(f, q[2]), q[3]]
  }

  /** The pixels of the buffer, each through `Quad`: pixel p is bytes
      `p * 4 .. p * 4 + 4`. */
  function Quads(f: real, rgba: seq<Byte>): (qs: seq<seq<Byte>>)
    ensures |qs| == |rgba| / 4
  {
    seq(|rgba| / 4, (p: nat) requires p < |rgba| / 4 => Quad(f, rgba[p * 4..p * 4 + 4]))
  }

  /** What `apply_contrast` returns: the converted pixels in order. */
  function Contrasted(f: real, rgba: seq<Byte>): seq<Byte>
  {
    Flatten(Quads(f, rgba))
  }

  /** `apply_contrast`. `width` and `height` are not used. A buffer whose length
      is not a multiple of 4 makes the source index past its end. */
  method ApplyContrast(rgba: seq<Byte>, width: nat, height: nat, contrastFactor: real)
    returns (result: seq<Byte>)
    requires contrastFactor != 259.0 && |rgba| % 4 == 0
    ensures result == Contrasted(Factor(contrastFactor), rgba)
  {
    var factor := Factor(contrastFactor);
    ghost var quads := Quads(factor, rgba);
    result := [];
    var i := 0;
    ghost var p := 0;
    while i < |rgba|
      invariant i == p * 4 && p <= |quads|
      invariant result == Flatten(quads[..p])
    {
      var r := Stretch(factor, rgba[i]);
      var g := Stretch(factor, rgba[i + 1]);
      var b := Stretch(factor, rgba[i + 2]);
      assert quads[p] == [r, g, b, rgba[i + 3]];
      FlattenStep(quads, p);
      result := result + [r];
      result := result + [g];
      result := result + [b];
      result := result + [rgba[i + 3]];
      i := i + 4;
      p := p + 1;
    }
    assert quads[..p] == quads;
  }
}
