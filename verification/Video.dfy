/**
 Integer conversion of video frames between RGB and planar YUV (section 2.5 of
 Recommendation ITU-R BT.601, in eight-bit fixed point) and how much of a frame
 survives the way there and back.
 */
module Video {
  /** A signed byte, as the arrays hold them. */
  type Byte = x: int | -0x80 <= x < 0x80

  function ToByte(n: int): Byte {
    var low := n % 0x100;
    if low < 0x80 then low else low - 0x100
  }

  function Unsigned(b: Byte): int { b % 0x100 }

  function Clamp(n: int): Byte {
    ToByte(if n < 0 then 0 else if n > 255 then 255 else n)
  }

  // --------------------------------------------------------------------- pixels

  datatype Rgb = Rgb(r: int, g: int, b: int)

  ghost predicate InRange(p: Rgb) { 0 <= p.r < 256 && 0 <= p.g < 256 && 0 <= p.b < 256 }

  /** The colours packed in an integer. */
  function Unpack(rgb: int): (p: Rgb)
    ensures InRange(p)
  {
    Rgb((rgb / 0x10000) % 0x100, (rgb / 0x100) % 0x100, rgb % 0x100)
  }

  /** Red is in the third byte, green in the second and blue in the lowest; the rest is ignored. */
  lemma UnpackTakesBytes(p: Rgb, alpha: int)
    requires InRange(p)
    ensures Unpack(0x1000000 * alpha + 0x10000 * p.r + 0x100 * p.g + p.b) == p
  {
    LowByte(0x10000 * alpha + 0x100 * p.r + p.g, p.b);
    LowByte(0x100 * alpha + p.r, p.g);
    LowByte(alpha, p.r);
    LowTwoBytes(0x100 * alpha + p.r, 0x100 * p.g + p.b);
  }

  lemma LowByte(high: int, low: int)
    requires 0 <= low < 0x100
    ensures (0x100 * high + low) / 0x100 == high && (0x100 * high + low) % 0x100 == low
  {
  }

  lemma LowTwoBytes(high: int, low: int)
    requires 0 <= low < 0x10000
    ensures (0x10000 * high + low) / 0x10000 == high
  {
  }

  function RgbToY(p: Rgb): Byte { Clamp((66 * p.r + 129 * p.g + 25 * p.b + 128) / 256 + 16) }

  function RgbToU(p: Rgb): Byte { Clamp((-38 * p.r - 74 * p.g + 112 * p.b + 128) / 256 + 128) }

  function RgbToV(p: Rgb): Byte { Clamp((112 * p.r - 94 * p.g - 18 * p.b + 128) / 256 + 128) }

  function YuvToR(y: int, u: int, v: int): Byte { Clamp((298 * (y - 16) + 409 * (v - 128) + 128) / 256) }

  function YuvToG(y: int, u: int, v: int): Byte {
    Clamp((298 * (y - 16) - 100 * (u - 128) - 208 * (v - 128) + 128) / 256)
  }

  function YuvToB(y: int, u: int, v: int): Byte { Clamp((298 * (y - 16) + 516 * (u - 128) + 128) / 256) }

  ghost predicate Near(a: int, b: int, tolerance: int) { -tolerance <= a - b <= tolerance }

  /** Clamping brings a value no further from a colour. */
  lemma ClampIsNear(n: int, c: int, tolerance: int)
    requires 0 <= c < 256 && Near(n, c, tolerance)
    ensures Near(Unsigned(Clamp(n)), c, tolerance)
  {
  }

  lemma ClampInRange(n: int)
    requires 0 <= n < 256
    ensures Unsigned(Clamp(n)) == n
  {
  }

  /** n is rounded to q in units of 256. */
  ghost predicate Rounds(n: int, q: int) { 0 <= n + 128 - 256 * q < 256 }

  lemma DivRounds(n: int)
    ensures Rounds(n, (n + 128) / 256)
  {
  }

  /** Colours that are in range leave Y, U and V in range, so clamping does nothing to them. */
  lemma LumaIsRounded(p: Rgb)
    requires InRange(p)
    ensures Rounds(66 * p.r + 129 * p.g + 25 * p.b, Unsigned(RgbToY(p)) - 16)
  {
    RoundedInRange(66 * p.r + 129 * p.g + 25 * p.b, 16);
  }

  lemma ChromaIsRounded(p: Rgb)
    requires InRange(p)
    ensures Rounds(-38 * p.r - 74 * p.g + 112 * p.b, Unsigned(RgbToU(p)) - 128)
    ensures Rounds(112 * p.r - 94 * p.g - 18 * p.b, Unsigned(RgbToV(p)) - 128)
  {
    RoundedInRange(-38 * p.r - 74 * p.g + 112 * p.b, 128);
    RoundedInRange(112 * p.r - 94 * p.g - 18 * p.b, 128);
  }

  lemma RoundedInRange(n: int, offset: int)
    requires -256 * offset <= n < 256 * (255 - offset)
    ensures Rounds(n, Unsigned(Clamp((n + 128) / 256 + offset)) - offset)
  {
    DivRounds(n);
    ClampInRange((n + 128) / 256 + offset);
  }

  lemma RedSurvives(r: int, g: int, b: int, y: int, v: int)
    requires InRange(Rgb(r, g, b))
    requires Rounds(66 * r + 129 * g + 25 * b, y)
    requires Rounds(112 * r - 94 * g - 18 * b, v)
    ensures Near((298 * y + 409 * v + 128) / 256, r, 2)
  {
  }

  lemma GreenSurvives(r: int, g: int, b: int, y: int, u: int, v: int)
    requires InRange(Rgb(r, g, b))
    requires Rounds(66 * r + 129 * g + 25 * b, y)
    requires Rounds(-38 * r - 74 * g + 112 * b, u)
    requires Rounds(112 * r - 94 * g - 18 * b, v)
    ensures Near((298 * y - 100 * u - 208 * v + 128) / 256, g, 2)
  {
  }

  lemma BlueSurvives(r: int, g: int, b: int, y: int, u: int)
    requires InRange(Rgb(r, g, b))
    requires Rounds(66 * r + 129 * g + 25 * b, y)
    requires Rounds(-38 * r - 74 * g + 112 * b, u)
    ensures Near((298 * y + 516 * u + 128) / 256, b, 3)
  {
  }

  // ------------------------------------------------------------------ the standard

  // Section 2.5 of Recommendation ITU-R BT.601: luma is 0.299 R + 0.587 G + 0.114 B, coded in
  // 219 steps from 16; the colour differences, scaled to a range of 1, in 224 steps around 128.

  function Luma(p: Rgb): real { 0.299 * p.r as real + 0.587 * p.g as real + 0.114 * p.b as real }

  ghost predicate Within(n: int, x: real, tolerance: real) { -tolerance < n as real - x < tolerance }

  /** The integer formulas stay within 1 of the standard. */
  lemma LumaFollowsStandard(p: Rgb)
    requires InRange(p)
    ensures Within(Unsigned(RgbToY(p)), 16.0 + 219.0 * Luma(p) / 255.0, 1.0)
  {
    LumaIsRounded(p);
  }

  lemma ChromaFollowsStandard(p: Rgb)
    requires InRange(p)
    ensures Within(Unsigned(RgbToU(p)), 128.0 + 224.0 * (p.b as real - Luma(p)) / 1.772 / 255.0, 1.0)
    ensures Within(Unsigned(RgbToV(p)), 128.0 + 224.0 * (p.r as real - Luma(p)) / 1.402 / 255.0, 1.0)
  {
    ChromaIsRounded(p);
  }

  function Clip(x: real): real { if x < 0.0 then 0.0 else if x > 255.0 then 255.0 else x }

  /** The luma, red, green and blue that coded values stand for. */
  function LumaOf(y: int): real { (y as real - 16.0) * 255.0 / 219.0 }

  function RedOf(y: int, v: int): real { LumaOf(y) + 1.402 * (v as real - 128.0) * 255.0 / 224.0 }

  function BlueOf(y: int, u: int): real { LumaOf(y) + 1.772 * (u as real - 128.0) * 255.0 / 224.0 }

  function GreenOf(y: int, u: int, v: int): real { (LumaOf(y) - 0.299 * RedOf(y, v) - 0.114 * BlueOf(y, u)) / 0.587 }

  /** Clamping an approximation of a real approximates the clipped real. */
  lemma ClampFollowsClip(n: int, x: real)
    requires Within(n, x, 1.0)
    ensures Within(Unsigned(Clamp(n)), Clip(x), 1.0)
  {
    ClampedValue(n);
  }

  lemma ClampedValue(n: int)
    ensures Unsigned(Clamp(n)) == if n < 0 then 0 else if n > 255 then 255 else n
  {
  }

  /** Decoding coded values of eight bits stays within 1 of the standard, clipped to the range of a colour. */
  lemma DecodingFollowsStandard(y: int, u: int, v: int)
    requires 0 <= y < 256 && 0 <= u < 256 && 0 <= v < 256
    ensures Within(Unsigned(YuvToR(y, u, v)), Clip(RedOf(y, v)), 1.0)
    ensures Within(Unsigned(YuvToG(y, u, v)), Clip(GreenOf(y, u, v)), 1.0)
    ensures Within(Unsigned(YuvToB(y, u, v)), Clip(BlueOf(y, u)), 1.0)
  {
    RedFollowsStandard(y, v, (298 * (y - 16) + 409 * (v - 128) + 128) / 256);
    GreenFollowsStandard(y, u, v, (298 * (y - 16) - 100 * (u - 128) - 208 * (v - 128) + 128) / 256);
    BlueFollowsStandard(y, u, (298 * (y - 16) + 516 * (u - 128) + 128) / 256);
  }

  lemma RedFollowsStandard(y: int, v: int, n: int)
    requires 0 <= y < 256 && 0 <= v < 256 && n == (298 * (y - 16) + 409 * (v - 128) + 128) / 256
    ensures Within(Unsigned(Clamp(n)), Clip(RedOf(y, v)), 1.0)
  {
    assert Within(n, RedOf(y, v), 1.0) by { DivRounds(298 * (y - 16) + 409 * (v - 128)); }
    ClampFollowsClip(n, RedOf(y, v));
  }

  lemma GreenFollowsStandard(y: int, u: int, v: int, n: int)
    requires 0 <= y < 256 && 0 <= u < 256 && 0 <= v < 256
    requires n == (298 * (y - 16) - 100 * (u - 128) - 208 * (v - 128) + 128) / 256
    ensures Within(Unsigned(Clamp(n)), Clip(GreenOf(y, u, v)), 1.0)
  {
    assert Within(n, GreenOf(y, u, v), 1.0) by { DivRounds(298 * (y - 16) - 100 * (u - 128) - 208 * (v - 128)); }
    ClampFollowsClip(n, GreenOf(y, u, v));
  }

  lemma BlueFollowsStandard(y: int, u: int, n: int)
    requires 0 <= y < 256 && 0 <= u < 256 && n == (298 * (y - 16) + 516 * (u - 128) + 128) / 256
    ensures Within(Unsigned(Clamp(n)), Clip(BlueOf(y, u)), 1.0)
  {
    assert Within(n, BlueOf(y, u), 1.0) by { DivRounds(298 * (y - 16) + 516 * (u - 128)); }
    ClampFollowsClip(n, BlueOf(y, u));
  }

  ghost predicate Close(p: Rgb, r: int, g: int, b: int) {
    Near(r, p.r, 2) && Near(g, p.g, 2) && Near(b, p.b, 3)
  }

  lemma DecodedIsClose(p: Rgb, y: int, u: int, v: int)
    requires InRange(p)
    requires Rounds(66 * p.r + 129 * p.g + 25 * p.b, y - 16)
    requires Rounds(-38 * p.r - 74 * p.g + 112 * p.b, u - 128)
    requires Rounds(112 * p.r - 94 * p.g - 18 * p.b, v - 128)
    ensures Close(p, Unsigned(YuvToR(y, u, v)), Unsigned(YuvToG(y, u, v)), Unsigned(YuvToB(y, u, v)))
  {
    RedSurvives(p.r, p.g, p.b, y - 16, v - 128);
    GreenSurvives(p.r, p.g, p.b, y - 16, u - 128, v - 128);
    BlueSurvives(p.r, p.g, p.b, y - 16, u - 128);
    ClampIsNear((298 * (y - 16) + 409 * (v - 128) + 128) / 256, p.r, 2);
    ClampIsNear((298 * (y - 16) - 100 * (u - 128) - 208 * (v - 128) + 128) / 256, p.g, 2);
    ClampIsNear((298 * (y - 16) + 516 * (u - 128) + 128) / 256, p.b, 3);
  }

  /** Every colour comes back within 2 in red and green and within 3 in blue. */
  lemma PixelSurvives(p: Rgb)
    requires InRange(p)
    ensures
      var y, u, v := Unsigned(RgbToY(p)), Unsigned(RgbToU(p)), Unsigned(RgbToV(p));
      Close(p, Unsigned(YuvToR(y, u, v)), Unsigned(YuvToG(y, u, v)), Unsigned(YuvToB(y, u, v)))
  {
    LumaIsRounded(p);
    ChromaIsRounded(p);
    DecodedIsClose(p, Unsigned(RgbToY(p)), Unsigned(RgbToU(p)), Unsigned(RgbToV(p)));
  }

  // --------------------------------------------------------------------- planes

  /** A frame: the packed colour at column x and row y. */
  type Frame = (int, int) -> int

  /** The pixel that the chroma planes sample for column or row n: the odd one of its pair. */
  function Odd(n: int): int { 2 * (n / 2) + 1 }

  function Colour(rgb: Frame, x: int, y: int): Rgb { Unpack(rgb(x, y)) }

  lemma MulMonotone(a: int, b: int, w: int)
    requires a <= b && w >= 0
    ensures a * w <= b * w
  {
    assert (b - a) * w >= 0;
  }

  lemma MulLess(a: int, b: int, w: int)
    requires a * w < b * w && w > 0
    ensures a < b
  {
    if b <= a {
      MulMonotone(b, a, w);
      assert false;
    }
  }

  lemma IndexInRange(x: int, y: int, w: int, h: int)
    requires 0 <= x < w && 0 <= y < h
    ensures 0 <= y * w + x < w * h
  {
    MulMonotone(0, y, w);
    MulMonotone(y + 1, h, w);
  }

  lemma IndexDivMod(x: int, y: int, w: int)
    requires 0 <= x < w
    ensures (y * w + x) / w == y && (y * w + x) % w == x
  {
    var n := y * w + x;
    var q, r := n / w, n % w;
    assert n == q * w + r && 0 <= r < w;
    assert (q - y) * w == x - r;
    assert -1 * w < (q - y) * w < 1 * w;
    MulLess(q - y, 1, w);
    MulLess(-1, q - y, w);
  }

  lemma DivModInRange(q: int, w: int, h: int)
    requires 0 < w && 0 <= q < w * h
    ensures 0 <= q % w < w && 0 <= q / w < h && q == (q / w) * w + q % w
  {
    MulLess(q / w, h, w);
    MulLess(-1, q / w, w);
  }

  /** The place of position q in a plane of w columns. */
  function Column(q: int, w: int): int { if w > 0 then q % w else 0 }

  function Row(q: int, w: int): int { if w > 0 then q / w else 0 }

  /** The three planes of a frame: the luma of every pixel, and two chromas of every block. */
  datatype Plane = Y | U | V

  /** What position q of a plane of w columns should hold for a frame. */
  function Sample(p: Plane, rgb: Frame, w: int, q: int): Byte {
    match p
    case Y => RgbToY(Colour(rgb, Column(q, w), Row(q, w)))
    case U => RgbToU(Colour(rgb, 2 * Column(q, w) + 1, 2 * Row(q, w) + 1))
    case V => RgbToV(Colour(rgb, 2 * Column(q, w) + 1, 2 * Row(q, w) + 1))
  }

  /** The first n samples of a plane are right. */
  ghost predicate Done(p: Plane, rgb: Frame, w: int, n: int, plane: seq<Byte>) {
    n <= |plane| && forall q :: 0 <= q < n ==> plane[q] == Sample(p, rgb, w, q)
  }

  /** They are, and the entries from n on are as they were. */
  ghost predicate Filled(p: Plane, rgb: Frame, w: int, n: int, plane: seq<Byte>, was: seq<Byte>) {
    && Done(p, rgb, w, n, plane)
    && |plane| == |was| && forall q :: 0 <= q < |was| && n <= q ==> plane[q] == was[q]
  }

  lemma NextSample(p: Plane, rgb: Frame, w: int, n: int, plane: seq<Byte>, was: seq<Byte>)
    requires 0 <= n < |plane| && Filled(p, rgb, w, n, plane, was)
    ensures Filled(p, rgb, w, n + 1, plane[n := Sample(p, rgb, w, n)], was)
  {
  }

  lemma SamplesAt(rgb: Frame, x: int, y: int, w: int)
    requires 0 <= x < w
    ensures Sample(Y, rgb, w, y * w + x) == RgbToY(Colour(rgb, x, y))
    ensures Sample(U, rgb, w, y * w + x) == RgbToU(Colour(rgb, x * 2 + 1, y * 2 + 1))
    ensures Sample(V, rgb, w, y * w + x) == RgbToV(Colour(rgb, x * 2 + 1, y * 2 + 1))
  {
    IndexDivMod(x, y, w);
  }

  method YLoop(rgb: Frame, plane: array<Byte>, h: int, w: int)
    requires w >= 0 && h >= 0 && plane.Length >= w * h
    modifies plane
    ensures Filled(Y, rgb, w, w * h, plane[..], old(plane[..]))
  {
    ghost var n, y0 := 0, plane[..];
    var y := 0;
    while y < h
      invariant 0 <= y <= h && n == y * w && Filled(Y, rgb, w, n, plane[..], y0)
    {
      var x := 0;
      while x < w
        invariant 0 <= x <= w && n == y * w + x && Filled(Y, rgb, w, n, plane[..], y0)
      {
        IndexInRange(x, y, w, h);
        SamplesAt(rgb, x, y, w);
        ghost var ys := plane[..];
        plane[y * w + x] := RgbToY(Colour(rgb, x, y));
        assert plane[..] == ys[n := Sample(Y, rgb, w, n)];
        NextSample(Y, rgb, w, n, ys, y0);
        x, n := x + 1, n + 1;
      }
      assert y * w + w == (y + 1) * w;
      y := y + 1;
    }
    assert n == w * h;
  }

  /** The chroma planes take one sample for every block of two by two pixels. */
  method UvLoop(rgb: Frame, uPlane: array<Byte>, vPlane: array<Byte>, h: int, w: int)
    requires w >= 0 && h >= 0 && uPlane.Length >= w * h && vPlane.Length >= w * h && uPlane != vPlane
    modifies uPlane, vPlane
    ensures Filled(U, rgb, w, w * h, uPlane[..], old(uPlane[..])) && Filled(V, rgb, w, w * h, vPlane[..], old(vPlane[..]))
  {
    ghost var n, u0, v0 := 0, uPlane[..], vPlane[..];
    var y := 0;
    while y < h
      invariant 0 <= y <= h && n == y * w
      invariant Filled(U, rgb, w, n, uPlane[..], u0) && Filled(V, rgb, w, n, vPlane[..], v0)
    {
      var x := 0;
      while x < w
        invariant 0 <= x <= w && n == y * w + x
        invariant Filled(U, rgb, w, n, uPlane[..], u0) && Filled(V, rgb, w, n, vPlane[..], v0)
      {
        IndexInRange(x, y, w, h);
        SamplesAt(rgb, x, y, w);
        ghost var us, vs := uPlane[..], vPlane[..];
        uPlane[y * w + x] := RgbToU(Colour(rgb, x * 2 + 1, y * 2 + 1));
        vPlane[y * w + x] := RgbToV(Colour(rgb, x * 2 + 1, y * 2 + 1));
        assert uPlane[..] == us[n := Sample(U, rgb, w, n)] && vPlane[..] == vs[n := Sample(V, rgb, w, n)];
        NextSample(U, rgb, w, n, us, u0);
        NextSample(V, rgb, w, n, vs, v0);
        x, n := x + 1, n + 1;
      }
      assert y * w + w == (y + 1) * w;
      y := y + 1;
    }
    assert n == w * h;
  }

  lemma QuarterIsEnough(w: int, h: int)
    requires w >= 0 && h >= 0
    ensures 0 <= (w / 2) * (h / 2) <= w * h / 4
  {
    MulMonotone(0, h / 2, w / 2);
    MulMonotone(2 * (w / 2), w, 2 * (h / 2));
    MulMonotone(2 * (h / 2), h, w);
    assert 2 * (w / 2) * (2 * (h / 2)) == 4 * ((w / 2) * (h / 2));
  }

  /** The three planes of a frame; a chroma plane may end in entries that are never written and stay zero. */
  ghost predicate Planes(rgb: Frame, w: int, h: int, y: seq<Byte>, u: seq<Byte>, v: seq<Byte>) {
    && |y| == w * h && |u| == w * h / 4 && |v| == w * h / 4
    && Done(Y, rgb, w, w * h, y)
    && Done(U, rgb, w / 2, (w / 2) * (h / 2), u) && ZeroFrom((w / 2) * (h / 2), u)
    && Done(V, rgb, w / 2, (w / 2) * (h / 2), v) && ZeroFrom((w / 2) * (h / 2), v)
  }

  ghost predicate ZeroFrom(n: int, plane: seq<Byte>) {
    forall q :: 0 <= q < |plane| && n <= q ==> plane[q] == 0
  }

  /** The planes of one frame, in arrays of the size the generator allocates for them. */
  method Yuv(rgb: Frame, w: int, h: int) returns (y: array<Byte>, u: array<Byte>, v: array<Byte>)
    requires w >= 0 && h >= 0
    ensures Planes(rgb, w, h, y[..], u[..], v[..])
  {
    MulMonotone(0, h, w);
    QuarterIsEnough(w, h);
    y, u, v := new Byte[w * h], new Byte[w * h / 4](_ => 0), new Byte[w * h / 4](_ => 0);
    YLoop(rgb, y, h, w);
    UvLoop(rgb, u, v, h / 2, w / 2);
  }

  // ------------------------------------------------------------------- conversion

  function YIndex(q: int, w: int, stride: int): int { Row(q, w) * stride + Column(q, w) }

  function UvIndex(q: int, w: int, stride: int): int { Row(q, w) / 2 * stride + Column(q, w) / 2 }

  /** Pixel q reads inside all three planes. */
  ghost predicate InPlanes(q: int, w: int, y: seq<Byte>, u: seq<Byte>, v: seq<Byte>, ys: int, us: int, vs: int) {
    0 <= YIndex(q, w, ys) < |y| && 0 <= UvIndex(q, w, us) < |u| && 0 <= UvIndex(q, w, vs) < |v|
  }

  /** What pixel q of the three planes decodes to. */
  ghost predicate Decodes(q: int, w: int, y: seq<Byte>, u: seq<Byte>, v: seq<Byte>, ys: int, us: int, vs: int, r: Byte, g: Byte, b: Byte)
  {
    && InPlanes(q, w, y, u, v, ys, us, vs)
    && var yx, ux, vx := Unsigned(y[YIndex(q, w, ys)]), Unsigned(u[UvIndex(q, w, us)]), Unsigned(v[UvIndex(q, w, vs)]);
       r == YuvToR(yx, ux, vx) && g == YuvToG(yx, ux, vx) && b == YuvToB(yx, ux, vx)
  }

  /** The pixel at column x and row k reads inside all three planes. */
  ghost predicate ReadsInside(x: int, k: int, y: seq<Byte>, u: seq<Byte>, v: seq<Byte>, ys: int, us: int, vs: int) {
    && 0 <= k * ys + x < |y|
    && 0 <= k / 2 * us + x / 2 < |u|
    && 0 <= k / 2 * vs + x / 2 < |v|
  }

  /** What it is decoded to from what it reads there. */
  ghost predicate DecodedAt(x: int, k: int, y: seq<Byte>, u: seq<Byte>, v: seq<Byte>, ys: int, us: int, vs: int, r: Byte, g: Byte, b: Byte)
    requires ReadsInside(x, k, y, u, v, ys, us, vs)
  {
    var yx, ux, vx := Unsigned(y[k * ys + x]), Unsigned(u[k / 2 * us + x / 2]), Unsigned(v[k / 2 * vs + x / 2]);
    r == YuvToR(yx, ux, vx) && g == YuvToG(yx, ux, vx) && b == YuvToB(yx, ux, vx)
  }

  lemma PositionOf(x: int, k: int, w: int, h: int)
    requires 0 <= x < w && 0 <= k < h
    ensures 0 <= k * w + x < w * h && Column(k * w + x, w) == x && Row(k * w + x, w) == k
  {
    IndexInRange(x, k, w, h);
    IndexDivMod(x, k, w);
  }

  /** Every pixel, by column and row, reads inside the planes and is decoded from what it reads. */
  ghost predicate AllDecoded(w: int, h: int, y: seq<Byte>, u: seq<Byte>, v: seq<Byte>, ys: int, us: int, vs: int, r: seq<Byte>, g: seq<Byte>, b: seq<Byte>)
  {
    forall x, k :: 0 <= x < w && 0 <= k < h ==>
      && ReadsInside(x, k, y, u, v, ys, us, vs)
      && 0 <= k * w + x < |r| && k * w + x < |g| && k * w + x < |b|
      && DecodedAt(x, k, y, u, v, ys, us, vs, r[k * w + x], g[k * w + x], b[k * w + x])
  }

  lemma DecodedByPosition(x: int, k: int, w: int, h: int, y: seq<Byte>, u: seq<Byte>, v: seq<Byte>, ys: int, us: int, vs: int, r: Byte, g: Byte, b: Byte)
    requires 0 <= x < w && 0 <= k < h && Decodes(k * w + x, w, y, u, v, ys, us, vs, r, g, b)
    ensures ReadsInside(x, k, y, u, v, ys, us, vs) && DecodedAt(x, k, y, u, v, ys, us, vs, r, g, b)
  {
    var q := k * w + x;
    PositionOf(x, k, w, h);
    assert YIndex(q, w, ys) == k * ys + x && UvIndex(q, w, us) == k / 2 * us + x / 2 && UvIndex(q, w, vs) == k / 2 * vs + x / 2;
  }

  lemma ByColumnAndRow(w: int, h: int, y: seq<Byte>, u: seq<Byte>, v: seq<Byte>, ys: int, us: int, vs: int, r: seq<Byte>, g: seq<Byte>, b: seq<Byte>)
    requires |r| == w * h && |g| == w * h && |b| == w * h
    requires forall q :: 0 <= q < w * h ==> Decodes(q, w, y, u, v, ys, us, vs, r[q], g[q], b[q])
    ensures AllDecoded(w, h, y, u, v, ys, us, vs, r, g, b)
    ensures forall x, k :: 0 <= x < w && 0 <= k < h ==> ReadsInside(x, k, y, u, v, ys, us, vs)
  {
    forall x, k | 0 <= x < w && 0 <= k < h
      ensures ReadsInside(x, k, y, u, v, ys, us, vs) && 0 <= k * w + x < w * h
      ensures DecodedAt(x, k, y, u, v, ys, us, vs, r[k * w + x], g[k * w + x], b[k * w + x])
    {
      var q := k * w + x;
      PositionOf(x, k, w, h);
      DecodedByPosition(x, k, w, h, y, u, v, ys, us, vs, r[q], g[q], b[q]);
    }
  }

  /** Converts planes of any size and stride; false stands for an index out of bounds. */
  method YuvToRgb(w: int, h: int, y: seq<Byte>, u: seq<Byte>, v: seq<Byte>, ys: int, us: int, vs: int)
    returns (ok: bool, r: array<Byte>, g: array<Byte>, b: array<Byte>)
    requires w >= 0 && h >= 0
    ensures ok <==> forall q :: 0 <= q < w * h ==> InPlanes(q, w, y, u, v, ys, us, vs)
    ensures r.Length == w * h && g.Length == w * h && b.Length == w * h
    ensures ok ==> forall q :: 0 <= q < w * h ==> Decodes(q, w, y, u, v, ys, us, vs, r[q], g[q], b[q])
    ensures ok <==> forall x, k :: 0 <= x < w && 0 <= k < h ==> ReadsInside(x, k, y, u, v, ys, us, vs)
    ensures ok ==> AllDecoded(w, h, y, u, v, ys, us, vs, r[..], g[..], b[..])
  {
    MulMonotone(0, h, w);
    r, g, b := new Byte[w * h], new Byte[w * h], new Byte[w * h];
    var yPos := 0;
    while yPos < h
      invariant 0 <= yPos <= h
      invariant forall q :: 0 <= q < yPos * w && q < w * h ==> Decodes(q, w, y, u, v, ys, us, vs, r[q], g[q], b[q])
    {
      var xPos := 0;
      while xPos < w
        invariant 0 <= xPos <= w
        invariant forall q :: 0 <= q < yPos * w + xPos && q < w * h ==> Decodes(q, w, y, u, v, ys, us, vs, r[q], g[q], b[q])
      {
        var currPos := yPos * w + xPos;
        IndexInRange(xPos, yPos, w, h);
        IndexDivMod(xPos, yPos, w);
        var yi, ui, vi := yPos * ys + xPos, yPos / 2 * us + xPos / 2, yPos / 2 * vs + xPos / 2;
        assert yi == YIndex(currPos, w, ys) && ui == UvIndex(currPos, w, us) && vi == UvIndex(currPos, w, vs);
        if !(0 <= yi < |y| && 0 <= ui < |u| && 0 <= vi < |v|) {
          assert !InPlanes(currPos, w, y, u, v, ys, us, vs);
          assert !ReadsInside(xPos, yPos, y, u, v, ys, us, vs);
          ok := false;
          return;
        }
        var yx, ux, vx := Unsigned(y[yi]), Unsigned(u[ui]), Unsigned(v[vi]);
        r[currPos] := YuvToR(yx, ux, vx);
        g[currPos] := YuvToG(yx, ux, vx);
        b[currPos] := YuvToB(yx, ux, vx);
        assert Decodes(currPos, w, y, u, v, ys, us, vs, r[currPos], g[currPos], b[currPos]);
        xPos := xPos + 1;
      }
      assert yPos * w + w == (yPos + 1) * w;
      yPos := yPos + 1;
    }
    assert yPos * w == w * h;
    ok := true;
    forall q | 0 <= q < w * h ensures InPlanes(q, w, y, u, v, ys, us, vs) {
      assert Decodes(q, w, y, u, v, ys, us, vs, r[q], g[q], b[q]);
    }
    ByColumnAndRow(w, h, y, u, v, ys, us, vs, r[..], g[..], b[..]);
  }

  // -------------------------------------------------- when the planes are large enough

  /** For which sizes no pixel of a frame reads outside the chroma planes that the generator allocates. */
  predicate PlanesSuffice(w: int, h: int) {
    || w == 0 || h == 0
    || (w % 2 == 0 && h % 2 == 0)
    || (w % 2 == 1 && h >= if h % 2 == 0 then 4 else w + 4)
  }

  lemma LastIndexIsLargest(w: int, h: int, q: int)
    requires w > 0 && h > 0 && 0 <= q < w * h
    ensures 0 <= UvIndex(q, w, w / 2) <= (h - 1) / 2 * (w / 2) + (w - 1) / 2
  {
    DivModInRange(q, w, h);
    MulMonotone(0, q / w / 2, w / 2);
    MulMonotone(q / w / 2, (h - 1) / 2, w / 2);
  }

  /** The last chroma index of a frame of 2a + e columns and 2m + f rows, and four times the size of a chroma plane. */
  function LastIndex(a: int, e: int, m: int, f: int, am: int): int {
    (if f == 0 then am - a else am) + (if e == 0 then a - 1 else a)
  }

  function Area(a: int, e: int, m: int, f: int, am: int): int {
    4 * am + (if f == 0 then 0 else 2 * a) + (if e == 0 then 0 else 2 * m + f)
  }

  lemma LastIndexInCases(a: int, e: int, m: int, f: int, am: int)
    requires 0 <= e < 2 && 0 <= f < 2 && a >= 0 && m >= 0 && 2 * a + e > 0 && 2 * m + f > 0
    ensures LastIndex(a, e, m, f, am) < Area(a, e, m, f, am) / 4 <==>
      (e == 0 && f == 0) || (e == 1 && 2 * m + f >= if f == 0 then 4 else 2 * a + e + 4)
  {
  }

  lemma LastIndexInTerms(w: int, h: int)
    requires w > 0 && h > 0
    ensures w * h == Area(w / 2, w % 2, h / 2, h % 2, (w / 2) * (h / 2))
    ensures (h - 1) / 2 * (w / 2) + (w - 1) / 2 == LastIndex(w / 2, w % 2, h / 2, h % 2, (w / 2) * (h / 2))
  {
    var a, e, m, f := w / 2, w % 2, h / 2, h % 2;
    assert w == 2 * a + e && h == 2 * m + f;
    AreaOfBlocks(a, e, m, f);
    if f == 0 {
      assert (h - 1) / 2 == m - 1;
      assert (m - 1) * a == a * m - a;
    } else {
      assert (h - 1) / 2 == m;
    }
  }

  lemma AreaOfBlocks(a: int, e: int, m: int, f: int)
    requires 0 <= e < 2 && 0 <= f < 2
    ensures (2 * a + e) * (2 * m + f) == Area(a, e, m, f, a * m)
  {
    assert (2 * a) * (2 * m + f) == 4 * (a * m) + 2 * a * f;
    assert (2 * a + e) * (2 * m + f) == (2 * a) * (2 * m + f) + e * (2 * m + f);
  }

  lemma LastIndexFits(w: int, h: int)
    requires w > 0 && h > 0
    ensures (h - 1) / 2 * (w / 2) + (w - 1) / 2 < w * h / 4 <==> PlanesSuffice(w, h)
  {
    LastIndexInTerms(w, h);
    LastIndexInCases(w / 2, w % 2, h / 2, h % 2, (w / 2) * (h / 2));
  }

  /** The generator's own planes can be converted exactly for these sizes. */
  lemma PlanesSufficeExactly(w: int, h: int)
    requires w >= 0 && h >= 0
    ensures (forall q :: 0 <= q < w * h ==> 0 <= UvIndex(q, w, w / 2) < w * h / 4) <==> PlanesSuffice(w, h)
  {
    if w > 0 && h > 0 {
      var last := (h - 1) * w + (w - 1);
      IndexInRange(w - 1, h - 1, w, h);
      IndexDivMod(w - 1, h - 1, w);
      assert UvIndex(last, w, w / 2) == (h - 1) / 2 * (w / 2) + (w - 1) / 2;
      LastIndexFits(w, h);
      forall q | 0 <= q < w * h ensures 0 <= UvIndex(q, w, w / 2) <= UvIndex(last, w, w / 2) {
        LastIndexIsLargest(w, h, q);
      }
    }
  }

  // ------------------------------------------------------------------- round trip

  /** The block of pixel q lies inside the frame, with its odd pixel. */
  predicate WholeBlock(q: int, w: int, h: int) {
    Odd(Column(q, w)) < w && Odd(Row(q, w)) < h
  }

  /** Pixel q lies in a whole block and has the colour of its odd pixel. */
  predicate LikeItsBlock(rgb: Frame, w: int, h: int, q: int) {
    WholeBlock(q, w, h) && rgb(Odd(Column(q, w)), Odd(Row(q, w))) == rgb(Column(q, w), Row(q, w))
  }

  /** The chroma sample of a pixel in a whole block is that of the odd pixel of its block. */
  lemma ChromaSample(q: int, w: int, h: int)
    requires w > 0 && 0 <= q < w * h && WholeBlock(q, w, h)
    ensures
      var p := UvIndex(q, w, w / 2);
      && 0 <= p < (w / 2) * (h / 2)
      && 2 * Column(p, w / 2) + 1 == Odd(Column(q, w)) && 2 * Row(p, w / 2) + 1 == Odd(Row(q, w))
  {
    DivModInRange(q, w, h);
    IndexInRange(q % w / 2, q / w / 2, w / 2, h / 2);
    IndexDivMod(q % w / 2, q / w / 2, w / 2);
  }

  lemma OwnLuma(q: int, w: int, h: int)
    requires w > 0 && 0 <= q < w * h
    ensures YIndex(q, w, w) == q
  {
    DivModInRange(q, w, h);
  }

  /** What the planes of a frame hold for pixel q: its own luma, and the chroma of the odd pixel of its block. */
  lemma PlanesHold(rgb: Frame, w: int, h: int, y: seq<Byte>, u: seq<Byte>, v: seq<Byte>, q: int)
    requires w > 0 && 0 <= q < w * h && WholeBlock(q, w, h)
    requires Done(Y, rgb, w, w * h, y) && Done(U, rgb, w / 2, (w / 2) * (h / 2), u) && Done(V, rgb, w / 2, (w / 2) * (h / 2), v)
    ensures 0 <= YIndex(q, w, w) < |y| && y[YIndex(q, w, w)] == RgbToY(Colour(rgb, Column(q, w), Row(q, w)))
    ensures 0 <= UvIndex(q, w, w / 2) < |u| && u[UvIndex(q, w, w / 2)] == RgbToU(Colour(rgb, Odd(Column(q, w)), Odd(Row(q, w))))
    ensures 0 <= UvIndex(q, w, w / 2) < |v| && v[UvIndex(q, w, w / 2)] == RgbToV(Colour(rgb, Odd(Column(q, w)), Odd(Row(q, w))))
  {
    var n, p := (w / 2) * (h / 2), UvIndex(q, w, w / 2);
    assert YIndex(q, w, w) == q by { OwnLuma(q, w, h); }
    assert 0 <= p < n && 2 * Column(p, w / 2) + 1 == Odd(Column(q, w)) && 2 * Row(p, w / 2) + 1 == Odd(Row(q, w)) by {
      ChromaSample(q, w, h);
    }
    ReadSample(Y, rgb, w, w * h, y, q);
    ReadSample(U, rgb, w / 2, n, u, p);
    ReadSample(V, rgb, w / 2, n, v, p);
  }

  lemma ReadSample(p: Plane, rgb: Frame, w: int, n: int, plane: seq<Byte>, q: int)
    requires Done(p, rgb, w, n, plane) && 0 <= q < n
    ensures q < |plane| && plane[q] == Sample(p, rgb, w, q)
  {
  }

  /**
   Generating the planes of a frame of any size and converting them back brings every pixel of
   a whole block close to its colour if it has the colour of the odd pixel of its block.
   */
  lemma FrameSurvives(rgb: Frame, w: int, h: int, y: seq<Byte>, u: seq<Byte>, v: seq<Byte>, q: int, r: Byte, g: Byte, b: Byte)
    requires w >= 0 && 0 <= q < w * h && LikeItsBlock(rgb, w, h, q) && Planes(rgb, w, h, y, u, v)
    requires Decodes(q, w, y, u, v, w, w / 2, w / 2, r, g, b)
    ensures Close(Colour(rgb, Column(q, w), Row(q, w)), Unsigned(r), Unsigned(g), Unsigned(b))
  {
    PlanesHold(rgb, w, h, y, u, v, q);
    PixelSurvives(Colour(rgb, Column(q, w), Row(q, w)));
  }

  /** In particular every pixel in an odd column and an odd row is close to its colour. */
  lemma OddPixelsSurvive(rgb: Frame, w: int, h: int, y: seq<Byte>, u: seq<Byte>, v: seq<Byte>, q: int, r: Byte, g: Byte, b: Byte)
    requires w >= 0 && 0 <= q < w * h && Planes(rgb, w, h, y, u, v)
    requires Decodes(q, w, y, u, v, w, w / 2, w / 2, r, g, b)
    requires Column(q, w) % 2 == 1 && Row(q, w) % 2 == 1
    ensures Close(Colour(rgb, Column(q, w), Row(q, w)), Unsigned(r), Unsigned(g), Unsigned(b))
  {
    assert LikeItsBlock(rgb, w, h, q) by { OddPixel(rgb, w, h, q); }
    FrameSurvives(rgb, w, h, y, u, v, q, r, g, b);
  }

  lemma OddPixel(rgb: Frame, w: int, h: int, q: int)
    requires w >= 0 && 0 <= q < w * h && Column(q, w) % 2 == 1 && Row(q, w) % 2 == 1
    ensures LikeItsBlock(rgb, w, h, q)
  {
    DivModInRange(q, w, h);
  }

  /** There and back for a frame of any size: whether it can be done, and which pixels come back close. */
  method ThereAndBack(rgb: Frame, w: int, h: int) returns (ok: bool, r: array<Byte>, g: array<Byte>, b: array<Byte>)
    requires w >= 0 && h >= 0
    ensures ok <==> PlanesSuffice(w, h)
    ensures r.Length == w * h && g.Length == w * h && b.Length == w * h
    ensures ok ==> forall q :: 0 <= q < w * h && LikeItsBlock(rgb, w, h, q) ==>
      Close(Colour(rgb, Column(q, w), Row(q, w)), Unsigned(r[q]), Unsigned(g[q]), Unsigned(b[q]))
  {
    var y, u, v := Yuv(rgb, w, h);
    ok, r, g, b := YuvToRgb(w, h, y[..], u[..], v[..], w, w / 2, w / 2);
    InPlanesExactly(rgb, w, h, y[..], u[..], v[..]);
    if ok {
      forall q | 0 <= q < w * h && LikeItsBlock(rgb, w, h, q)
        ensures Close(Colour(rgb, Column(q, w), Row(q, w)), Unsigned(r[q]), Unsigned(g[q]), Unsigned(b[q]))
      {
        FrameSurvives(rgb, w, h, y[..], u[..], v[..], q, r[q], g[q], b[q]);
      }
    }
  }

  lemma InPlanesExactly(rgb: Frame, w: int, h: int, y: seq<Byte>, u: seq<Byte>, v: seq<Byte>)
    requires w >= 0 && h >= 0 && Planes(rgb, w, h, y, u, v)
    ensures (forall q :: 0 <= q < w * h ==> InPlanes(q, w, y, u, v, w, w / 2, w / 2)) <==> PlanesSuffice(w, h)
  {
    PlanesSufficeExactly(w, h);
    forall q | 0 <= q < w * h
      ensures InPlanes(q, w, y, u, v, w, w / 2, w / 2) <==> 0 <= UvIndex(q, w, w / 2) < w * h / 4
    {
      DivModInRange(q, w, h);
      assert YIndex(q, w, w) == q;
    }
  }

  // ---------------------------------------------------- for which sizes frames survive

  /** Pixels of the frame in the same block of two by two have the same colour. */
  ghost predicate Blocky(rgb: Frame, w: int, h: int) {
    forall x, y, x', y' :: 0 <= x < w && 0 <= y < h && 0 <= x' < w && 0 <= y' < h && x / 2 == x' / 2 && y / 2 == y' / 2 ==>
      rgb(x, y) == rgb(x', y')
  }

  /** The planes of the frame can be converted, and every pixel comes back close to its colour. */
  ghost predicate Survives(rgb: Frame, w: int, h: int, y: seq<Byte>, u: seq<Byte>, v: seq<Byte>) {
    forall q :: 0 <= q < w * h ==> ComesBack(rgb, w, y, u, v, q)
  }

  ghost predicate ComesBack(rgb: Frame, w: int, y: seq<Byte>, u: seq<Byte>, v: seq<Byte>, q: int) {
    && InPlanes(q, w, y, u, v, w, w / 2, w / 2)
    && var yx, ux, vx := Unsigned(y[YIndex(q, w, w)]), Unsigned(u[UvIndex(q, w, w / 2)]), Unsigned(v[UvIndex(q, w, w / 2)]);
       Close(Colour(rgb, Column(q, w), Row(q, w)), Unsigned(YuvToR(yx, ux, vx)), Unsigned(YuvToG(yx, ux, vx)), Unsigned(YuvToB(yx, ux, vx)))
  }

  predicate EvenSized(w: int, h: int) { w == 0 || h == 0 || (w % 2 == 0 && h % 2 == 0) }

  /** Frames of even size that are constant on blocks survive, every pixel of them. */
  lemma EvenFramesSurvive(rgb: Frame, w: int, h: int, y: seq<Byte>, u: seq<Byte>, v: seq<Byte>)
    requires w >= 0 && h >= 0 && EvenSized(w, h) && Blocky(rgb, w, h) && Planes(rgb, w, h, y, u, v)
    ensures Survives(rgb, w, h, y, u, v)
  {
    InPlanesExactly(rgb, w, h, y, u, v);
    forall q | 0 <= q < w * h ensures ComesBack(rgb, w, y, u, v, q) {
      assert InPlanes(q, w, y, u, v, w, w / 2, w / 2);
      BlockyPixel(rgb, w, h, q);
      PixelComesBack(rgb, w, h, y, u, v, q);
    }
  }

  lemma BlockyPixel(rgb: Frame, w: int, h: int, q: int)
    requires w >= 0 && h >= 0 && EvenSized(w, h) && Blocky(rgb, w, h) && 0 <= q < w * h
    ensures LikeItsBlock(rgb, w, h, q)
  {
    DivModInRange(q, w, h);
  }

  lemma PixelComesBack(rgb: Frame, w: int, h: int, y: seq<Byte>, u: seq<Byte>, v: seq<Byte>, q: int)
    requires w >= 0 && 0 <= q < w * h && LikeItsBlock(rgb, w, h, q) && Planes(rgb, w, h, y, u, v)
    requires InPlanes(q, w, y, u, v, w, w / 2, w / 2)
    ensures ComesBack(rgb, w, y, u, v, q)
  {
    var yx, ux, vx := Unsigned(y[YIndex(q, w, w)]), Unsigned(u[UvIndex(q, w, w / 2)]), Unsigned(v[UvIndex(q, w, w / 2)]);
    FrameSurvives(rgb, w, h, y, u, v, q, YuvToR(yx, ux, vx), YuvToG(yx, ux, vx), YuvToB(yx, ux, vx));
  }

  /** Black, with whatever is to the right of the whole blocks in red. */
  function RedEdge(w: int): Frame { (x: int, y: int) => if x / 2 >= w / 2 then 0xFF0000 else 0 }

  /** With an odd width the last column has no block of its own: its chroma is taken from elsewhere. */
  lemma RedEdgeIsLost(w: int, h: int, y: seq<Byte>, u: seq<Byte>, v: seq<Byte>)
    requires w % 2 == 1 && w > 0 && h >= 4 && Planes(RedEdge(w), w, h, y, u, v)
    ensures !ComesBack(RedEdge(w), w, y, u, v, w - 1)
  {
    EdgeIndices(w);
    if InPlanes(w - 1, w, y, u, v, w, w / 2, w / 2) {
      EdgeSamples(w, h, y, u, v);
      RedWithoutChroma(Unsigned(u[w / 2]), Unsigned(v[w / 2]));
      assert Colour(RedEdge(w), w - 1, 0).r == 255;
    }
  }

  lemma EdgeIndices(w: int)
    requires w % 2 == 1 && w > 0
    ensures Column(w - 1, w) == w - 1 && Row(w - 1, w) == 0
    ensures YIndex(w - 1, w, w) == w - 1 && UvIndex(w - 1, w, w / 2) == w / 2
    ensures Colour(RedEdge(w), w - 1, 0) == Rgb(255, 0, 0)
  {
    assert Column(w - 1, w) == w - 1 && Row(w - 1, w) == 0 by { FirstRow(w - 1, w); }
  }

  lemma FirstRow(x: int, w: int)
    requires 0 <= x < w
    ensures Column(x, w) == x && Row(x, w) == 0
  {
    IndexDivMod(x, 0, w);
  }

  /** What the converter reads for the pixel at the end of the first row: its luma, and chroma that knows of no red. */
  lemma EdgeSamples(w: int, h: int, y: seq<Byte>, u: seq<Byte>, v: seq<Byte>)
    requires w % 2 == 1 && w > 0 && h >= 4 && Planes(RedEdge(w), w, h, y, u, v)
    requires w - 1 < |y| && w / 2 < |v|
    ensures Unsigned(y[w - 1]) == 82 && Unsigned(v[w / 2]) <= 128
  {
    EdgeLuma(w, h, y);
    EdgeChroma(w, h, v);
  }

  lemma EdgeLuma(w: int, h: int, y: seq<Byte>)
    requires w % 2 == 1 && w > 0 && h > 0 && Done(Y, RedEdge(w), w, w * h, y)
    ensures w - 1 < |y| && Unsigned(y[w - 1]) == 82
  {
    MulMonotone(1, h, w);
    EdgeIndices(w);
    assert y[w - 1] == Sample(Y, RedEdge(w), w, w - 1);
  }

  lemma EdgeChroma(w: int, h: int, v: seq<Byte>)
    requires w % 2 == 1 && w > 0 && h >= 4 && w / 2 < |v|
    requires Done(V, RedEdge(w), w / 2, (w / 2) * (h / 2), v) && ZeroFrom((w / 2) * (h / 2), v)
    ensures Unsigned(v[w / 2]) <= 128
  {
    if w == 1 {
      NoBlocks(h / 2);
      assert v[0] == 0;
    } else {
      assert w / 2 < (w / 2) * (h / 2) by { EdgeIsSampledElsewhere(w, h); }
      ReadSample(V, RedEdge(w), w / 2, (w / 2) * (h / 2), v, w / 2);
      EdgeSampleIsBlack(w, h);
    }
  }

  lemma EdgeSampleIsBlack(w: int, h: int)
    requires w % 2 == 1 && w > 1 && h >= 4
    ensures Unsigned(Sample(V, RedEdge(w), w / 2, w / 2)) == 128
  {
    EdgeIsSampledElsewhere(w, h);
    assert Colour(RedEdge(w), 1, 3) == Rgb(0, 0, 0);
  }

  lemma NoBlocks(m: int)
    ensures 1 / 2 * m == 0
  {
  }

  lemma EdgeIsSampledElsewhere(w: int, h: int)
    requires w % 2 == 1 && w > 1 && h >= 4
    ensures w / 2 < (w / 2) * (h / 2) && Column(w / 2, w / 2) == 0 && Row(w / 2, w / 2) == 1
  {
    MulMonotone(2, h / 2, w / 2);
    IndexDivMod(0, 1, w / 2);
  }

  lemma RedWithoutChroma(ux: int, vx: int)
    requires vx <= 128
    ensures Unsigned(YuvToR(82, ux, vx)) < 100
  {
  }

  /** Every frame that is constant on blocks survives, whole, exactly for the even sizes. */
  ghost predicate AllFramesSurvive(w: int, h: int) {
    forall rgb: Frame, y: seq<Byte>, u: seq<Byte>, v: seq<Byte> ::
      Planes(rgb, w, h, y, u, v) && Blocky(rgb, w, h) ==> Survives(rgb, w, h, y, u, v)
  }

  lemma FramesSurviveExactly(w: int, h: int)
    requires w >= 0 && h >= 0
    ensures AllFramesSurvive(w, h) <==> EvenSized(w, h)
  {
    if EvenSized(w, h) {
      forall rgb: Frame, y: seq<Byte>, u: seq<Byte>, v: seq<Byte> | Planes(rgb, w, h, y, u, v) && Blocky(rgb, w, h)
        ensures Survives(rgb, w, h, y, u, v)
      {
        EvenFramesSurvive(rgb, w, h, y, u, v);
      }
    } else {
      OddFramesDoNot(w, h);
    }
  }

  lemma OddFramesDoNot(w: int, h: int)
    requires w >= 0 && h >= 0 && !EvenSized(w, h)
    ensures !AllFramesSurvive(w, h)
  {
    var y, u, v := PlanesExist(RedEdge(w), w, h);
    RedEdgeIsBlocky(w, h);
    if PlanesSuffice(w, h) {
      OddSizes(w, h);
      RedEdgeDoesNotSurvive(w, h, y, u, v);
    } else {
      SmallPlanesDoNotSurvive(RedEdge(w), w, h, y, u, v);
    }
  }

  lemma RedEdgeIsBlocky(w: int, h: int)
    ensures Blocky(RedEdge(w), w, h)
  {
  }

  lemma OneLostPixel(rgb: Frame, w: int, h: int, y: seq<Byte>, u: seq<Byte>, v: seq<Byte>, q: int)
    requires 0 <= q < w * h && !ComesBack(rgb, w, y, u, v, q)
    ensures !Survives(rgb, w, h, y, u, v)
  {
  }

  lemma RedEdgeDoesNotSurvive(w: int, h: int, y: seq<Byte>, u: seq<Byte>, v: seq<Byte>)
    requires w % 2 == 1 && w > 0 && h >= 4 && w - 1 < w * h && Planes(RedEdge(w), w, h, y, u, v)
    ensures !Survives(RedEdge(w), w, h, y, u, v)
  {
    assert !ComesBack(RedEdge(w), w, y, u, v, w - 1) by { RedEdgeIsLost(w, h, y, u, v); }
    OneLostPixel(RedEdge(w), w, h, y, u, v, w - 1);
  }

  lemma SmallPlanesDoNotSurvive(rgb: Frame, w: int, h: int, y: seq<Byte>, u: seq<Byte>, v: seq<Byte>)
    requires w >= 0 && h >= 0 && !PlanesSuffice(w, h) && Planes(rgb, w, h, y, u, v)
    ensures !Survives(rgb, w, h, y, u, v)
  {
    var q := SomePixelIsOutside(rgb, w, h, y, u, v);
    OneLostPixel(rgb, w, h, y, u, v, q);
  }

  lemma OddSizes(w: int, h: int)
    requires w >= 0 && h >= 0 && !EvenSized(w, h) && PlanesSuffice(w, h)
    ensures w % 2 == 1 && w > 0 && h >= 4 && 0 <= w - 1 < w * h
  {
    MulMonotone(1, h, w);
  }

  lemma SomePixelIsOutside(rgb: Frame, w: int, h: int, y: seq<Byte>, u: seq<Byte>, v: seq<Byte>) returns (q: int)
    requires w >= 0 && h >= 0 && !PlanesSuffice(w, h) && Planes(rgb, w, h, y, u, v)
    ensures 0 <= q < w * h && !ComesBack(rgb, w, y, u, v, q)
  {
    InPlanesExactly(rgb, w, h, y, u, v);
    q :| 0 <= q < w * h && !InPlanes(q, w, y, u, v, w, w / 2, w / 2);
  }

  lemma PlanesExist(rgb: Frame, w: int, h: int) returns (y: seq<Byte>, u: seq<Byte>, v: seq<Byte>)
    requires w >= 0 && h >= 0
    ensures Planes(rgb, w, h, y, u, v)
  {
    MulMonotone(0, h, w);
    QuarterIsEnough(w, h);
    var n := (w / 2) * (h / 2);
    y := seq(w * h, q requires 0 <= q < w * h => Sample(Y, rgb, w, q));
    u := seq(w * h / 4, p requires 0 <= p < w * h / 4 => if p < n then Sample(U, rgb, w / 2, p) else 0);
    v := seq(w * h / 4, p requires 0 <= p < w * h / 4 => if p < n then Sample(V, rgb, w / 2, p) else 0);
  }
}
