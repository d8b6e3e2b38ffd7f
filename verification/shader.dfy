/** The scalar arithmetic of the two shader stages (VERT and FRAG), stated over
    real numbers as an idealisation of `mediump float`. Texture sampling is not
    modelled: the fragment stage is kept as the coordinates it samples at and
    the colour it outputs for a sampled colour and mask value. */
module Shader {

  datatype Vec2 = Vec2(x: real, y: real)
  datatype Rgb = Rgb(r: real, g: real, b: real)

  /** The fullscreen quad, `[-1, -1, 1, -1, -1, 1, 1, 1]`, drawn as a strip. */
  const Quad: seq<Vec2> := [Vec2(-1.0, -1.0), Vec2(1.0, -1.0), Vec2(-1.0, 1.0), Vec2(1.0, 1.0)]

  predicate InClipSquare(a: Vec2)
  {
    -1.0 <= a.x <= 1.0 && -1.0 <= a.y <= 1.0
  }

  predicate InUnitSquare(v: Vec2)
  {
    0.0 <= v.x <= 1.0 && 0.0 <= v.y <= 1.0
  }

  predicate Positive(v: Vec2)
  {
    v.x > 0.0 && v.y > 0.0
  }

  // ---------------------------------------------------------------------------
  // Vertex stage

  /** The vertex stage's texture coordinate: the clip-space position halved
      and shifted into [0, 1], then flipped vertically. */
  function VertexUV(a: Vec2): Vec2
  {
    var uv := Vec2(a.x * 0.5 + 0.5, a.y * 0.5 + 0.5);
    uv.(y := 1.0 - uv.y)
  }

  /** The inverse of VertexUV, mapping a texture coordinate back to clip space. */
  function ClipOfUV(v: Vec2): Vec2
  {
    Vec2(v.x * 2.0 - 1.0, 1.0 - v.y * 2.0)
  }

  /** The vertex stage maps the clip square onto the unit square, one to one. */
  lemma VertexUVRoundTrip(a: Vec2, v: Vec2)
    ensures ClipOfUV(VertexUV(a)) == a
    ensures VertexUV(ClipOfUV(v)) == v
    ensures InClipSquare(a) <==> InUnitSquare(VertexUV(a))
  {
  }

  /** The quad's corners land on the texture's corners with the vertical axis
      flipped: the bottom-left of the screen samples row 1 of the image, which
      is its bottom row since images are stored top row first. */
  lemma QuadCorners()
    ensures VertexUV(Quad[0]) == Vec2(0.0, 1.0)
    ensures VertexUV(Quad[1]) == Vec2(1.0, 1.0)
    ensures VertexUV(Quad[2]) == Vec2(0.0, 0.0)
    ensures VertexUV(Quad[3]) == Vec2(1.0, 0.0)
  {
  }

  // ---------------------------------------------------------------------------
  // Cover fit

  /** Width over height. */
  function Aspect(v: Vec2): (r: real)
    requires v.y != 0.0
    ensures r * v.y == v.x
  {
    v.x / v.y
  }

  /** The sampling scale `s` of the fragment stage. Both components lie in
      (0, 1] and at least one is 1, so the image is cropped along one axis
      only; and the cropped window has the container's aspect ratio, so the
      image is not distorted. These three facts determine `s`. */
  function CoverScale(res: Vec2, img: Vec2): (s: Vec2)
    requires Positive(res) && Positive(img)
    ensures 0.0 < s.x <= 1.0 && 0.0 < s.y <= 1.0
    ensures s.x == 1.0 || s.y == 1.0
    ensures s.x * Aspect(img) == s.y * Aspect(res)
  {
    var c := Aspect(res);
    var i := Aspect(img);
    AspectPositive(res);
    AspectPositive(img);
    if c > i then
      (DivBelowOne(i, c); DivMulCancel(i, c); Vec2(1.0, i / c))
    else
      (DivBelowOne(c, i); DivMulCancel(c, i); Vec2(c / i, 1.0))
  }

  lemma DivBelowOne(a: real, b: real)
    requires 0.0 < a <= b
    ensures 0.0 < a / b <= 1.0
  {
  }

  lemma DivMulCancel(a: real, b: real)
    requires b != 0.0
    ensures (a / b) * b == a
  {
  }

  lemma AspectPositive(v: Vec2)
    requires Positive(v)
    ensures Aspect(v) > 0.0
  {
  }

  /** Both scales are 1 exactly when the container and the image have the same
      aspect ratio; otherwise exactly one of them is, and the other is the
      smaller of the two aspect-ratio quotients. */
  lemma CoverScaleCases(res: Vec2, img: Vec2)
    requires Positive(res) && Positive(img)
    ensures var s := CoverScale(res, img);
            (s.x == 1.0 && s.y == 1.0) <==> Aspect(res) == Aspect(img)
    ensures var s, c, i := CoverScale(res, img), Aspect(res), Aspect(img);
            c > i ==> s.x == 1.0 && s.y == i / c && s.y < 1.0
    ensures var s, c, i := CoverScale(res, img), Aspect(res), Aspect(img);
            c < i ==> s.y == 1.0 && s.x == c / i && s.x < 1.0
  {
    var s, c, i := CoverScale(res, img), Aspect(res), Aspect(img);
    AspectPositive(res);
    AspectPositive(img);
    if c > i {
      DivMulCancel(i, c);
      assert s.y * c == i;
      assert s.y < 1.0;
    } else if c < i {
      DivMulCancel(c, i);
      assert s.x * i == c;
      assert s.x < 1.0;
    }
  }

  // ---------------------------------------------------------------------------
  // UV remap

  /** `uv = v_uv * s + (1.0 - s) * 0.5`, on one axis: a scaling by s about
      the centre 0.5. */
  function RemapCoord(v: real, s: real): (r: real)
    ensures r - 0.5 == (v - 0.5) * s
  {
    v * s + (1.0 - s) * 0.5
  }

  /** `uv = v_uv * s + (1.0 - s) * 0.5` */
  function RemapUV(v: Vec2, s: Vec2): Vec2
  {
    Vec2(RemapCoord(v.x, s.x), RemapCoord(v.y, s.y))
  }

  /** Along each axis the remapped coordinate stays in the window of width s
      centred on 0.5, so with s in (0, 1] it stays in [0, 1]. */
  lemma RemapWindow(v: Vec2, s: Vec2)
    requires InUnitSquare(v)
    requires 0.0 < s.x <= 1.0 && 0.0 < s.y <= 1.0
    ensures (1.0 - s.x) * 0.5 <= RemapUV(v, s).x <= (1.0 + s.x) * 0.5
    ensures (1.0 - s.y) * 0.5 <= RemapUV(v, s).y <= (1.0 + s.y) * 0.5
    ensures InUnitSquare(RemapUV(v, s))
  {
    RemapAxis(v.x, s.x);
    RemapAxis(v.y, s.y);
  }

  lemma RemapAxis(v: real, s: real)
    requires 0.0 <= v <= 1.0 && 0.0 < s <= 1.0
    ensures (1.0 - s) * 0.5 <= RemapCoord(v, s) <= (1.0 + s) * 0.5
    ensures 0.0 <= RemapCoord(v, s) <= 1.0
  {
    ScaledUnit(v, s);
    var p := v * s;
    assert 0.0 <= p <= s;
    assert (1.0 - s) * 0.5 == 0.5 - 0.5 * s;
    assert (1.0 + s) * 0.5 == 0.5 + 0.5 * s;
  }

  lemma ScaledUnit(v: real, s: real)
    requires 0.0 <= v <= 1.0 && s >= 0.0
    ensures 0.0 <= v * s <= s
  {
    assert (1.0 - v) * s >= 0.0;
  }

  /** The crop is centred and symmetric: the middle of the screen samples the
      middle of the image, and mirrored screen positions sample mirrored image
      positions. */
  lemma RemapCentred(v: Vec2, s: Vec2)
    ensures RemapUV(Vec2(0.5, 0.5), s) == Vec2(0.5, 0.5)
    ensures RemapUV(Vec2(1.0 - v.x, 1.0 - v.y), s) == Vec2(1.0 - RemapUV(v, s).x, 1.0 - RemapUV(v, s).y)
  {
    assert RemapCoord(0.5, s.x) == 0.5 && RemapCoord(0.5, s.y) == 0.5;
    assert RemapCoord(1.0 - v.x, s.x) == 1.0 - RemapCoord(v.x, s.x);
    assert RemapCoord(1.0 - v.y, s.y) == 1.0 - RemapCoord(v.y, s.y);
  }

  /** The image coordinate a fragment samples at, for the clip-space position
      it was interpolated from. */
  function ImageUV(a: Vec2, res: Vec2, img: Vec2): Vec2
    requires Positive(res) && Positive(img)
  {
    RemapUV(VertexUV(a), CoverScale(res, img))
  }

  /** Every fragment of the quad samples the image inside [0, 1] on both axes,
      within the centred window the cover scale leaves. */
  lemma ImageUVInUnitSquare(a: Vec2, res: Vec2, img: Vec2)
    requires InClipSquare(a) && Positive(res) && Positive(img)
    ensures InUnitSquare(ImageUV(a, res, img))
    ensures var s := CoverScale(res, img);
            (1.0 - s.x) * 0.5 <= ImageUV(a, res, img).x <= (1.0 + s.x) * 0.5 &&
            (1.0 - s.y) * 0.5 <= ImageUV(a, res, img).y <= (1.0 + s.y) * 0.5
  {
    VertexUVRoundTrip(a, a);
    RemapWindow(VertexUV(a), CoverScale(res, img));
  }

  // ---------------------------------------------------------------------------
  // Colour

  predicate InUnitCube(c: Rgb)
  {
    0.0 <= c.r <= 1.0 && 0.0 <= c.g <= 1.0 && 0.0 <= c.b <= 1.0
  }

  /** The fragment stage's saturation boost, `float boost = 1.05`. */
  const Boost: real := 1.05

  /** `dot(color.rgb, vec3(0.299, 0.587, 0.114))` */
  function Luma(c: Rgb): real
  {
    c.r * 0.299 + c.g * 0.587 + c.b * 0.114
  }

  /** `vec3(luma)` */
  function Grey(l: real): Rgb
  {
    Rgb(l, l, l)
  }

  /** GLSL `mix(x, y, a) = x * (1 - a) + y * a`, on one channel. */
  function Mix(x: real, y: real, a: real): real
  {
    x * (1.0 - a) + y * a
  }

  /** GLSL `mix` on three channels. */
  function MixRgb(x: Rgb, y: Rgb, a: real): Rgb
  {
    Rgb(Mix(x.r, y.r, a), Mix(x.g, y.g, a), Mix(x.b, y.b, a))
  }

  /** `saturated = mix(vec3(luma), color.rgb, boost)` */
  function Saturated(c: Rgb): Rgb
  {
    MixRgb(Grey(Luma(c)), c, Boost)
  }

  /** `gl_FragColor.rgb = mix(vec3(luma), saturated, amount)` */
  function Shade(c: Rgb, amount: real): Rgb
  {
    MixRgb(Grey(Luma(c)), Saturated(c), amount)
  }

  function Min3(a: real, b: real, c: real): real
  {
    if a <= b && a <= c then a else if b <= c then b else c
  }

  function Max3(a: real, b: real, c: real): real
  {
    if a >= b && a >= c then a else if b >= c then b else c
  }

  /** The luma weights sum to 1, so a grey keeps its level, and luma is a
      weighted average of the channels: it lies between the smallest and the
      largest of them. */
  lemma LumaAverage(l: real, c: Rgb)
    ensures Luma(Grey(l)) == l
    ensures Min3(c.r, c.g, c.b) <= Luma(c) <= Max3(c.r, c.g, c.b)
    ensures InUnitCube(c) ==> 0.0 <= Luma(c) <= 1.0
  {
  }

  /** Mixing from a grey towards a colour moves the luma linearly. */
  lemma LumaOfMix(l: real, c: Rgb, a: real)
    ensures Luma(MixRgb(Grey(l), c, a)) == l * (1.0 - a) + Luma(c) * a
  {
    assert Luma(MixRgb(Grey(l), c, a))
        == (l * (1.0 - a)) * (0.299 + 0.587 + 0.114) + (c.r * 0.299 + c.g * 0.587 + c.b * 0.114) * a;
  }

  /** The boost pushes each channel 5% further from the pixel's luma and
      leaves the luma itself unchanged. */
  lemma SaturatedSpec(c: Rgb)
    ensures Saturated(c).r - Luma(c) == Boost * (c.r - Luma(c))
    ensures Saturated(c).g - Luma(c) == Boost * (c.g - Luma(c))
    ensures Saturated(c).b - Luma(c) == Boost * (c.b - Luma(c))
    ensures Luma(Saturated(c)) == Luma(c)
  {
    LumaOfMix(Luma(c), c, Boost);
  }

  /** The reveal only changes chroma: whatever the mask value, the output has
      the luma of the sampled colour. Fully hidden (reveal 0) is pure grey at
      that luma; fully revealed (reveal 1) is the boosted colour. */
  lemma ShadePreservesLuma(c: Rgb, amount: real)
    ensures Luma(Shade(c, amount)) == Luma(c)
    ensures Shade(c, 0.0) == Grey(Luma(c))
    ensures Shade(c, 1.0) == Saturated(c)
  {
    SaturatedSpec(c);
    LumaOfMix(Luma(c), Saturated(c), amount);
  }

  /** For a colour in the unit cube and a mask value in [0, 1], each output
      channel lies between the luma and the boosted channel, hence within
      [-0.05, 1.05]: the shader relies on the output's clamping at the ends. */
  lemma ShadeRange(c: Rgb, amount: real)
    requires InUnitCube(c) && 0.0 <= amount <= 1.0
    ensures var o, l := Shade(c, amount), Luma(c);
            Between(o.r, l, Saturated(c).r) && Between(o.g, l, Saturated(c).g) && Between(o.b, l, Saturated(c).b)
    ensures var o := Shade(c, amount);
            -0.05 <= o.r <= 1.05 && -0.05 <= o.g <= 1.05 && -0.05 <= o.b <= 1.05
  {
    var l := Luma(c);
    LumaAverage(l, c);
    SaturatedSpec(c);
    MixBetween(l, Saturated(c).r, amount);
    MixBetween(l, Saturated(c).g, amount);
    MixBetween(l, Saturated(c).b, amount);
  }

  predicate Between(v: real, a: real, b: real)
  {
    (a <= v <= b) || (b <= v <= a)
  }

  lemma MixBetween(x: real, y: real, a: real)
    requires 0.0 <= a <= 1.0
    ensures Between(Mix(x, y, a), x, y)
  {
    assert Mix(x, y, a) == x + (y - x) * a;
    if x <= y {
      ScaledUnit(a, y - x);
      assert a * (y - x) == (y - x) * a;
    } else {
      ScaledUnit(a, x - y);
      assert a * (x - y) == -((y - x) * a);
    }
  }

  /** The bounds of ShadeRange are reached outside [0, 1]: fully revealed pure
      red has a red channel above 1. */
  lemma SaturatedOvershoots()
    ensures InUnitCube(Rgb(1.0, 0.0, 0.0))
    ensures Shade(Rgb(1.0, 0.0, 0.0), 1.0).r > 1.0
  {
  }
}
