/** The bookkeeping of the reveal canvas: the state its mount effect keeps in
    mutable locals (pointer, background image, drawing surface and mask) and
    the event handlers and frame callback that update it. Painting the mask and
    every WebGL call are not modelled; a frame is kept as the stamp centres it
    paints along the stroke and the uniforms it would draw with. */
module Reveal {
  import opened Stroke
  import Shader

  datatype Option<T> = None | Some(value: T)

  /** Trail radius in CSS pixels, `RADIUS`. */
  const Radius: real := 180.0
  /** Viewport width below which the mobile image is chosen, `MOBILE_BREAKPOINT`. */
  const MobileBreakpoint: int := 768
  /** Where the pointer starts, off screen: `mx = my = -9999`. */
  const Offscreen: real := -9999.0
  /** The range of a WebIDL `unsigned long`, the type of a canvas's width and height. */
  const UnsignedLongRange: int := 0x1_0000_0000
  /** HTML reflects a canvas dimension only below 2^31; larger values fall
      back to the attribute's default. */
  const ReflectLimit: int := 0x8000_0000
  /** The defaults of a canvas's `width` and `height` attributes. */
  const DefaultWidth: nat := 300
  const DefaultHeight: nat := 150

  /** `devicePixelRatio || 1`: a ratio of 0 counts as missing. */
  function EffectiveDpr(raw: real): (d: real)
    requires raw >= 0.0
    ensures d > 0.0
    ensures raw > 0.0 ==> d == raw
    ensures raw == 0.0 ==> d == 1.0
  {
    if raw == 0.0 then 1.0 else raw
  }

  /** A mobile source counts only when it is present and not the empty string,
      as in the truthiness test `mobileSrc && ...`. */
  predicate Provided(mobileSrc: Option<string>)
  {
    mobileSrc.Some? && mobileSrc.value != ""
  }

  /** `pickSrc`: the mobile image exactly when one is provided and the viewport
      is narrower than the breakpoint; the default image otherwise. */
  function PickSrc(src: string, mobileSrc: Option<string>, width: int): (r: string)
    ensures Provided(mobileSrc) && width < MobileBreakpoint ==> r == mobileSrc.value
    ensures !Provided(mobileSrc) || width >= MobileBreakpoint ==> r == src
  {
    if Provided(mobileSrc) && width < MobileBreakpoint then mobileSrc.value else src
  }

  /** The choice depends only on the side of the breakpoint the width is on,
      which is why it is re-evaluated on a breakpoint-crossing media event
      rather than on every resize. */
  lemma PickSrcSameSide(src: string, mobileSrc: Option<string>, w1: int, w2: int)
    requires (w1 < MobileBreakpoint) == (w2 < MobileBreakpoint)
    ensures PickSrc(src, mobileSrc, w1) == PickSrc(src, mobileSrc, w2)
  {
  }

  /** Assigning `w * dpr` to a canvas dimension whose attribute defaults to
      `default`: the value is truncated to an integer and taken modulo 2^32,
      as a WebIDL `unsigned long` is, and a result of 2^31 or more is replaced
      by the default, as HTML reflection of the attribute does. */
  function ScaledSize(w: nat, dpr: real, default: nat): (n: nat)
    requires dpr > 0.0 && default < ReflectLimit
    ensures n < ReflectLimit
    ensures w as real * dpr < ReflectLimit as real ==> n as real <= w as real * dpr < n as real + 1.0
    ensures ReflectLimit as real <= w as real * dpr < UnsignedLongRange as real ==> n == default
  {
    var f := (w as real * dpr).Floor;
    assert f >= 0;
    var m := f % UnsignedLongRange;
    if m < ReflectLimit then m else default
  }

  /** The two uniforms a drawn frame sets: `u_resolution` and `u_imageSize`. */
  datatype Uniforms = Uniforms(resolution: Shader.Vec2, imageSize: Shader.Vec2)

  /** Views of the state, grouped by the handlers that own them. */
  datatype PointerView = PointerView(mx: real, my: real, px: real, py: real, active: bool)
  datatype AssetView = AssetView(currentSrc: string, loaded: bool, imgW: nat, imgH: nat, fetches: seq<string>)
  datatype SurfaceView = SurfaceView(canvasW: nat, canvasH: nat, maskW: nat, maskH: nat, maskCleared: bool)

  /** The state captured by the mount effect of the reveal canvas. */
  class RevealCanvas {
    /** The component's props: the default and the optional mobile image. */
    const src: string
    const mobileSrc: Option<string>

    /** Drawing surface size in device pixels (`canvas.width/height`). */
    var canvasW: nat
    var canvasH: nat
    /** Offscreen mask size (`mask.width/height`) and whether it is still
        blank: true from a clear until the first stamp is painted on it. */
    var maskW: nat
    var maskH: nat
    var maskCleared: bool

    /** The background image: its current source, every source assigned to
        `img.src` in order (each assignment starts a fetch), whether the
        current one has loaded and its natural size. */
    var currentSrc: string
    var fetches: seq<string>
    var loaded: bool
    var imgW: nat
    var imgH: nat

    /** Pointer in device pixels: current (`mx, my`), where the last stroke
        ended (`px, py`), and whether a pointer or touch is down. */
    var mx: real
    var my: real
    var px: real
    var py: real
    var active: bool

    ghost predicate Valid()
      reads this
    {
      maskW == canvasW && maskH == canvasH &&
      fetches != [] && fetches[|fetches| - 1] == currentSrc &&
      (currentSrc == src || (Provided(mobileSrc) && currentSrc == mobileSrc.value))
    }

    function Pointer(): PointerView
      reads this
    {
      PointerView(mx, my, px, py, active)
    }

    function Asset(): AssetView
      reads this
    {
      AssetView(currentSrc, loaded, imgW, imgH, fetches)
    }

    function Surface(): SurfaceView
      reads this
    {
      SurfaceView(canvasW, canvasH, maskW, maskH, maskCleared)
    }

    /** Mounting: initial locals, a first `resize()`, and the first fetch of
        `pickSrc()`. (The first `frame()` call is a no-op: nothing has loaded.) */
    constructor (src: string, mobileSrc: Option<string>, innerWidth: nat, innerHeight: nat, rawDpr: real)
      requires rawDpr >= 0.0
      ensures Valid()
      ensures this.src == src && this.mobileSrc == mobileSrc
      ensures Pointer() == PointerView(Offscreen, Offscreen, Offscreen, Offscreen, false)
      ensures Asset() == AssetView(PickSrc(src, mobileSrc, innerWidth), false, 1, 1, [PickSrc(src, mobileSrc, innerWidth)])
      ensures canvasW == ScaledSize(innerWidth, EffectiveDpr(rawDpr), DefaultWidth)
      ensures canvasH == ScaledSize(innerHeight, EffectiveDpr(rawDpr), DefaultHeight)
      ensures maskW == canvasW && maskH == canvasH && maskCleared
    {
      this.src := src;
      this.mobileSrc := mobileSrc;
      imgW, imgH := 1, 1;
      loaded := false;
      mx, my := Offscreen, Offscreen;
      active := false;
      px, py := Offscreen, Offscreen;
      var dpr := EffectiveDpr(rawDpr);
      canvasW := ScaledSize(innerWidth, dpr, DefaultWidth);
      canvasH := ScaledSize(innerHeight, dpr, DefaultHeight);
      maskW := ScaledSize(innerWidth, dpr, DefaultWidth);
      maskH := ScaledSize(innerHeight, dpr, DefaultHeight);
      maskCleared := true;
      var first := PickSrc(src, mobileSrc, innerWidth);
      currentSrc := first;
      fetches := [first];
    }

    /** `resize()`: the surface and the mask take the new device-pixel size,
        and the mask is cleared; the trail is discarded, not rescaled. */
    method Resize(rawDpr: real, innerWidth: nat, innerHeight: nat)
      requires Valid() && rawDpr >= 0.0
      modifies this
      ensures Valid()
      ensures canvasW == ScaledSize(innerWidth, EffectiveDpr(rawDpr), DefaultWidth)
      ensures canvasH == ScaledSize(innerHeight, EffectiveDpr(rawDpr), DefaultHeight)
      ensures maskW == canvasW && maskH == canvasH && maskCleared
      ensures Pointer() == old(Pointer()) && Asset() == old(Asset())
    {
      var dpr := EffectiveDpr(rawDpr);
      canvasW := ScaledSize(innerWidth, dpr, DefaultWidth);
      canvasH := ScaledSize(innerHeight, dpr, DefaultHeight);
      maskW := ScaledSize(innerWidth, dpr, DefaultWidth);
      maskH := ScaledSize(innerHeight, dpr, DefaultHeight);
      maskCleared := true;
    }

    /** `setPos(cx, cy)`: the pointer moves to the client position scaled to
        device pixels. Coming from inactive, the stroke origin jumps to the
        same point, so the next stroke has length 0 instead of running from a
        stale position; while active, the origin is kept. */
    method SetPos(cx: real, cy: real, rawDpr: real)
      requires Valid() && rawDpr >= 0.0
      modifies this
      ensures Valid()
      ensures mx == cx * EffectiveDpr(rawDpr) && my == cy * EffectiveDpr(rawDpr) && active
      ensures !old(active) ==> px == mx && py == my
      ensures old(active) ==> px == old(px) && py == old(py)
      ensures Asset() == old(Asset()) && Surface() == old(Surface())
    {
      var dpr := EffectiveDpr(rawDpr);
      mx := cx * dpr;
      my := cy * dpr;
      if !active {
        px := mx;
        py := my;
      }
      active := true;
    }

    /** `onLeave`: the pointer only goes inactive; positions are kept. */
    method OnLeave()
      requires Valid()
      modifies this
      ensures Valid()
      ensures Pointer() == old(Pointer()).(active := false)
      ensures Asset() == old(Asset()) && Surface() == old(Surface())
    {
      active := false;
    }

    /** `onTouch` (touchstart and touchmove): the first contact drives the
        pointer exactly as `setPos`; no contacts, no change. */
    method OnTouch(touches: seq<Point>, rawDpr: real)
      requires Valid() && rawDpr >= 0.0
      modifies this
      ensures Valid()
      ensures touches == [] ==> Pointer() == old(Pointer())
      ensures touches != [] ==>
        mx == touches[0].x * EffectiveDpr(rawDpr) && my == touches[0].y * EffectiveDpr(rawDpr) && active &&
        (!old(active) ==> px == mx && py == my) &&
        (old(active) ==> px == old(px) && py == old(py))
      ensures Asset() == old(Asset()) && Surface() == old(Surface())
    {
      if |touches| > 0 {
        SetPos(touches[0].x, touches[0].y, rawDpr);
      }
    }

    /** `onTouchEnd`: as `onLeave`. */
    method OnTouchEnd()
      requires Valid()
      modifies this
      ensures Valid()
      ensures Pointer() == old(Pointer()).(active := false)
      ensures Asset() == old(Asset()) && Surface() == old(Surface())
    {
      active := false;
    }

    /** `onBreakpoint`: re-pick the source for the viewport width. Only a
        different choice starts a fetch and marks the image not loaded; the
        same choice changes nothing. Either way the current source is then the
        choice, so a second call at the same width is a no-op. */
    method OnBreakpoint(innerWidth: int)
      requires Valid()
      modifies this
      ensures Valid()
      ensures currentSrc == PickSrc(src, mobileSrc, innerWidth)
      ensures currentSrc == old(currentSrc) ==> Asset() == old(Asset())
      ensures currentSrc != old(currentSrc) ==>
        !loaded && fetches == old(fetches) + [currentSrc] && imgW == old(imgW) && imgH == old(imgH)
      ensures Pointer() == old(Pointer()) && Surface() == old(Surface())
    {
      var next := PickSrc(src, mobileSrc, innerWidth);
      if next != currentSrc {
        currentSrc := next;
        loaded := false;
        fetches := fetches + [currentSrc];
      }
    }

    /** `img.onload`: record the natural size and open the frame gate. */
    method OnLoad(naturalWidth: nat, naturalHeight: nat)
      requires Valid()
      modifies this
      ensures Valid()
      ensures Asset() == old(Asset()).(loaded := true, imgW := naturalWidth, imgH := naturalHeight)
      ensures Pointer() == old(Pointer()) && Surface() == old(Surface())
    {
      imgW := naturalWidth;
      imgH := naturalHeight;
      loaded := true;
    }

    /** The bookkeeping of `frame()`. Until the image has loaded it does
        nothing. Once loaded it draws with the surface and image sizes as
        uniforms; if the pointer is active it also stamps along the stroke
        from the last stroke end to the pointer, subdivided by `Steps`, and
        the stroke end catches up with the pointer. `dist` is the stroke's
        length, which the source computes with `Math.sqrt`. */
    method Frame(rawDpr: real, dist: real) returns (drawn: Option<Uniforms>, stamps: seq<Point>)
      requires Valid() && rawDpr >= 0.0
      requires dist >= 0.0 && dist * dist == SqDist(Point(px, py), Point(mx, my))
      modifies this
      ensures Valid()
      ensures Asset() == old(Asset())
      ensures mx == old(mx) && my == old(my) && active == old(active)
      ensures canvasW == old(canvasW) && canvasH == old(canvasH) && maskW == old(maskW) && maskH == old(maskH)
      ensures !loaded ==> drawn == None && stamps == [] && Pointer() == old(Pointer()) && Surface() == old(Surface())
      ensures loaded ==> drawn == Some(Uniforms(Shader.Vec2(canvasW as real, canvasH as real), Shader.Vec2(imgW as real, imgH as real)))
      ensures loaded && !active ==> stamps == [] && px == old(px) && py == old(py) && maskCleared == old(maskCleared)
      ensures loaded && active ==>
        stamps == Path(Point(old(px), old(py)), Point(mx, my), Steps(dist, Radius * EffectiveDpr(rawDpr))) &&
        px == mx && py == my && !maskCleared
    ensures drawn.Some? && Shader.Positive(drawn.value.resolution) && Shader.Positive(drawn.value.imageSize) ==>
      forall a :: Shader.InClipSquare(a) ==>
        Shader.InUnitSquare(Shader.ImageUV(a, drawn.value.resolution, drawn.value.imageSize))
    {
      if !loaded {
        return None, [];
      }
      var dpr := EffectiveDpr(rawDpr);
      var r := Radius * dpr;
      stamps := [];
      if active {
        var steps := Steps(dist, r);
        stamps := StrokePoints(Point(px, py), Point(mx, my), steps);
        maskCleared := false;
        px := mx;
        py := my;
      }
      var u := Uniforms(Shader.Vec2(canvasW as real, canvasH as real), Shader.Vec2(imgW as real, imgH as real));
      if Shader.Positive(u.resolution) && Shader.Positive(u.imageSize) {
        forall a | Shader.InClipSquare(a)
          ensures Shader.InUnitSquare(Shader.ImageUV(a, u.resolution, u.imageSize))
        {
          Shader.ImageUVInUnitSquare(a, u.resolution, u.imageSize);
        }
      }
      drawn := Some(u);
    }
  }

  /** Reactivation resets the stroke: the pointer leaves at `a` and comes
      back at `b`; the first frame after that stamps only at `b`, never along
      the segment from `a`. */
  method ReactivationScenario(a: Point, b: Point) returns (stamps: seq<Point>)
    ensures |stamps| == 2 && stamps[0] == b && stamps[1] == b
  {
    var c := new RevealCanvas("bg.jpg", None, 1024, 768, 1.0);
    c.OnLoad(2048, 1365);
    c.SetPos(a.x, a.y, 1.0);
    var _, _ := c.Frame(1.0, 0.0);
    c.OnLeave();
    c.SetPos(b.x, b.y, 1.0);
    assert c.px == b.x && c.py == b.y && c.mx == b.x && c.my == b.y;
    var drawn;
    drawn, stamps := c.Frame(1.0, 0.0);
    PathEnds(b, b, 1);
  }

  /** A breakpoint crossing from 900 to 700 CSS pixels with a mobile image
      configured: the default image is fetched on mount, re-evaluating on
      the same side changes nothing, and crossing fetches the mobile image
      exactly once and closes the frame gate until it loads. */
  method BreakpointScenario(src: string, mobile: string) returns (fetches: seq<string>, loaded: bool)
    requires mobile != "" && mobile != src
    ensures fetches == [src, mobile]
    ensures !loaded
  {
    var c := new RevealCanvas(src, Some(mobile), 900, 600, 2.0);
    assert c.currentSrc == src;
    c.OnLoad(1920, 1080);
    c.OnBreakpoint(800);
    c.OnBreakpoint(700);
    c.OnBreakpoint(700);
    fetches, loaded := c.fetches, c.loaded;
  }
}
