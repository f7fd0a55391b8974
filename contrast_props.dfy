/** What `apply_contrast` promises: the buffer keeps its length and its alpha,
    contrast 0 changes nothing, 128 is the fixed point of every stretch, and a
    positive contrast pushes each channel away from 128. */
module ContrastProps {
  import opened Image
  import opened Contrast

  lemma QuadsShape(f: real, rgba: seq<Byte>)
    ensures AllLength(Quads(f, rgba), 4)
  {}

  /** The output has the same length as the input. */
  lemma ContrastLength(f: real, rgba: seq<Byte>)
    requires |rgba| % 4 == 0
    ensures |Contrasted(f, rgba)| == |rgba|
  {
    QuadsShape(f, rgba);
    FlattenLength(Quads(f, rgba), 4);
  }

  /** Byte c of pixel p: alpha (c = 3) is copied, R, G and B are stretched. */
  lemma ContrastAt(f: real, rgba: seq<Byte>, p: nat, c: nat)
    requires p < |rgba| / 4 && c < 4
    ensures p * 4 + c < |Contrasted(f, rgba)| && p * 4 + c < |rgba|
    ensures Contrasted(f, rgba)[p * 4 + c] == if c == 3 then rgba[p * 4 + c] else Stretch(f, rgba[p * 4 + c])
  {
    QuadsShape(f, rgba);
    FlattenAt(Quads(f, rgba), 4, p, c);
  }

  /** A factor of 1 leaves every channel as it is. */
  lemma StretchOne(v: Byte)
    ensures Stretch(1.0, v) == v
  {}

  /** With contrast 0 the whole buffer comes back unchanged. */
  lemma ContrastZeroIsIdentity(rgba: seq<Byte>)
    requires |rgba| % 4 == 0
    ensures Contrasted(Factor(0.0), rgba) == rgba
  {
    var out := Contrasted(Factor(0.0), rgba);
    ContrastLength(1.0, rgba);
    forall k | 0 <= k < |rgba|
      ensures out[k] == rgba[k]
    {
      var p, c := k / 4, k % 4;
      ContrastAt(1.0, rgba, p, c);
      StretchOne(rgba[k]);
    }
  }

  /** 128 is mapped to 128 whatever the factor. */
  lemma MidpointFixed(f: real)
    ensures Stretch(f, 128) == 128
  {}

  /** A non-negative factor keeps the order of channel values. */
  lemma StretchMonotone(f: real, v: Byte, w: Byte)
    requires f >= 0.0 && v <= w
    ensures Stretch(f, v) <= Stretch(f, w)
  {
    var a, b := f * (v as real - 128.0) + 128.0, f * (w as real - 128.0) + 128.0;
    ScaleMonotone(f, v as real - 128.0, w as real - 128.0);
    ClampMonotone(a, b);
    FloorMonotone(ClampByte(a), ClampByte(b));
  }

  /** Scaling by a non-negative factor keeps the order. */
  lemma ScaleMonotone(f: real, p: real, q: real)
    requires f >= 0.0 && p <= q
    ensures f * p <= f * q
  {
    assert f * q - f * p == f * (q - p);
  }

  lemma ClampMonotone(a: real, b: real)
    requires a <= b
    ensures ClampByte(a) <= ClampByte(b)
  {}

  lemma FloorMonotone(a: real, b: real)
    requires a <= b
    ensures a.Floor <= b.Floor
  {}

  /** A factor of at least 1 moves every channel away from 128, or leaves it. */
  lemma StretchAway(f: real, v: Byte)
    requires f >= 1.0
    ensures v >= 128 ==> Stretch(f, v) >= v
    ensures v <= 128 ==> Stretch(f, v) <= v
  {
    if v >= 128 {
      StretchUp(f, v);
    } else {
      StretchDown(f, v);
    }
  }

  lemma StretchUp(f: real, v: Byte)
    requires f >= 1.0 && v >= 128
    ensures Stretch(f, v) >= v
  {
    var d := v as real - 128.0;
    ScaleAtLeast(f, d);
    StretchAtLeast(f, v, v);
  }

  lemma StretchDown(f: real, v: Byte)
    requires f >= 1.0 && v <= 128
    ensures Stretch(f, v) <= v
  {
    var d := v as real - 128.0;
    ScaleAtMost(f, d);
    StretchAtMost(f, v, v);
  }

  /** A stretch whose linear value reaches a byte n is at least n. */
  lemma StretchAtLeast(f: real, v: Byte, n: Byte)
    requires f * (v as real - 128.0) + 128.0 >= n as real
    ensures Stretch(f, v) >= n
  {
    var x, r := f * (v as real - 128.0) + 128.0, Stretch(f, v);
    if x < 255.0 {
      assert r as real + 1.0 > x;
    }
  }

  /** A stretch whose linear value stays at or below a byte n is at most n. */
  lemma StretchAtMost(f: real, v: Byte, n: Byte)
    requires f * (v as real - 128.0) + 128.0 <= n as real
    ensures Stretch(f, v) <= n
  {
    var x, r := f * (v as real - 128.0) + 128.0, Stretch(f, v);
    if x > 0.0 {
      assert r as real <= x;
    }
  }

  /** Scaling a non-negative distance by at least 1 does not shrink it. */
  lemma ScaleAtLeast(f: real, d: real)
    requires f >= 1.0 && d >= 0.0
    ensures f * d >= d
  {
    assert f * d - d == (f - 1.0) * d;
  }

  /** Scaling a non-positive distance by at least 1 does not raise it. */
  lemma ScaleAtMost(f: real, d: real)
    requires f >= 1.0 && d <= 0.0
    ensures f * d <= d
  {
    ScaleAtLeast(f, -d);
    assert f * (-d) == -(f * d);
  }
}
