# Reveal canvas: a verified model of its bookkeeping

The reveal canvas (`app/components/RevealCanvas.tsx`) is a full-screen WebGL
effect. A background image is drawn in greyscale. Where the user's pointer or
finger has passed, a fading trail "paints" a mask, and the full-colour image
shows through with a slight saturation boost. This project models the logic
around the painting, in three Dafny modules:

- `Stroke` (`stroke.dfy`) covers the stroke subdivision of the frame callback.
  `steps = max(1, ceil(dist / (r * 0.25)))` stamps are placed at `t = i / steps`
  for `i = 0 .. steps`, and the loop that computes them is a method proved
  against the `Path` function.
- `Shader` (`shader.dfy`) holds the scalar arithmetic of the two shader
  stages over `real`: the vertex stage's texture coordinate with its vertical
  flip, the cover-fit scale and UV remap, luma, the 1.05 saturation boost and
  the final `mix` by the mask value.
- `Reveal` (`reveal_canvas.dfy`) turns the state that the mount effect keeps in
  mutable locals into the class `RevealCanvas`. That state is the pointer
  (`mx, my, px, py, active`), the background image (`currentSrc, loaded, imgW,
  imgH` and the sequence of sources fetched) and the surface and mask sizes.
  Each handler is a method: `resize`, `setPos`, `onLeave`, `onTouch`,
  `onTouchEnd`, `onBreakpoint`, `img.onload`, and the bookkeeping of `frame`.
  `pickSrc` is the function `PickSrc`, and `devicePixelRatio || 1` is
  `EffectiveDpr`.

The viewport size, the device pixel ratio, client coordinates, touch lists and
natural image sizes are method parameters. The stroke length, which the source
computes with `Math.sqrt`, is also a parameter of `Frame`. It must be
non-negative, and its square must be the squared displacement.

Two facts about the code shape the model:

- The code never guards against a zero-sized surface or image. `Frame` draws
  with whatever sizes it has, and the shader lemmas require positive sizes.
- When the container and image aspect ratios are equal, both cover-scale
  components are 1 (`Shader.CoverScaleCases`).

## Model

| member | source | states |
|---|---|---|
| Stroke.Ceil | app/components/RevealCanvas.tsx:219 | `Math.ceil` built from `Floor`: the result is the least integer not below its argument |
| Stroke.Steps | app/components/RevealCanvas.tsx:219 | the step count is at least 1 and at least `dist / (r/4)`, and it is the least such count: either 1 or less than `dist / (r/4) + 1` |
| Stroke.StepsCover | app/components/RevealCanvas.tsx:219 | `steps` quarter radii laid end to end cover the stroke length: `steps * (r/4) >= dist` |
| Stroke.Lerp | app/components/RevealCanvas.tsx:235-237 | the stamp centre at parameter t, `px + dx * t`, `py + dy * t`: t = 0 gives the previous position, t = 1 the current one |
| Stroke.Path | app/components/RevealCanvas.tsx:234-237 | the centres for `t = i/steps`, `i = 0 .. steps`; its contract is carried by `PathEnds`, `PathStep`, `PathGap` and `PathStill` below |
| Stroke.StrokePoints | app/components/RevealCanvas.tsx:234-237 | the `for i <= steps` loop yields exactly the centres `Path(from, to, steps)`, i.e. `px + dx * i/steps`, `py + dy * i/steps` |
| Stroke.PathEnds | app/components/RevealCanvas.tsx:234-237 | a stroke has `steps + 1` centres, the first at the previous position (t = 0) and the last at the current one (t = 1) |
| Stroke.PathStep | app/components/RevealCanvas.tsx:234-237 | consecutive centres are evenly spaced, each step moving by `(dx, dy) / steps` |
| Stroke.PathGap | app/components/RevealCanvas.tsx:214-219 | when `dist` is the stroke length, consecutive centres are at most `r/4` apart (squared distance at most `(r/4)^2`) |
| Stroke.PathStill | app/components/RevealCanvas.tsx:234-237 | a stroke whose ends coincide stamps only at that point |
| Shader.VertexUV | app/components/RevealCanvas.tsx:9-10 | the vertex stage's `v_uv`; `VertexUVRoundTrip` and `QuadCorners` below state what it computes |
| Shader.VertexUVRoundTrip | app/components/RevealCanvas.tsx:9-10 | `v_uv` is a bijection from the clip square onto the unit square, with its inverse; `a_position` in [-1,1]² iff `v_uv` in [0,1]² |
| Shader.QuadCorners | app/components/RevealCanvas.tsx:71-75 | the four quad vertices map to the four texture corners with the vertical axis flipped |
| Shader.Aspect | app/components/RevealCanvas.tsx:23-24 | `cAspect` and `iAspect`: the width/height ratio r, with `r * height == width` |
| Shader.CoverScale | app/components/RevealCanvas.tsx:23-30 | for positive sizes, both scales are in (0,1], at least one is 1, and the crop window keeps the container's aspect ratio (`s.x * imageAspect == s.y * containerAspect`) |
| Shader.CoverScaleCases | app/components/RevealCanvas.tsx:26-30 | both scales are 1 iff the aspect ratios are equal; a wider container shrinks `s.y` to `iAspect/cAspect < 1`, a narrower one shrinks `s.x` to `cAspect/iAspect < 1` |
| Shader.RemapCoord | app/components/RevealCanvas.tsx:31 | one axis of the remap scales the distance from the centre 0.5 by s: `r - 0.5 == (v - 0.5) * s` |
| Shader.RemapUV | app/components/RevealCanvas.tsx:31 | `uv = v_uv * s + (1 - s) * 0.5` on both axes; `RemapWindow` and `RemapCentred` below state its range and symmetry |
| Shader.RemapWindow | app/components/RevealCanvas.tsx:31 | for `v_uv` in [0,1]² and scales in (0,1], `uv` lies in the centred window `[(1-s)/2, (1+s)/2]`, hence in [0,1]² |
| Shader.RemapCentred | app/components/RevealCanvas.tsx:31 | the remap maps 0.5 to 0.5 and commutes with mirroring `v -> 1 - v` |
| Shader.ImageUV | app/components/RevealCanvas.tsx:9-31 | the image coordinate a fragment samples at, for its clip-space position; `ImageUVInUnitSquare` below bounds it |
| Shader.ImageUVInUnitSquare | app/components/RevealCanvas.tsx:9-10 | for every quad position and positive sizes, the image is sampled inside [0,1]² within the centred crop window |
| Shader.Luma | app/components/RevealCanvas.tsx:35 | the weighted channel sum; `LumaAverage` below states its range |
| Shader.Mix | app/components/RevealCanvas.tsx:39-40 | GLSL `mix` on one channel; `MixBetween` bounds it between its ends for a weight in [0,1] |
| Shader.MixRgb | app/components/RevealCanvas.tsx:39-40 | GLSL `mix` on three channels; `LumaOfMix` below states how it moves the luma |
| Shader.Saturated | app/components/RevealCanvas.tsx:38-39 | the 1.05 boost; `SaturatedSpec` below states what it does to each channel and to the luma |
| Shader.Shade | app/components/RevealCanvas.tsx:40 | the output colour for a sample and a mask value; `ShadePreservesLuma`, `ShadeRange` and `SaturatedOvershoots` below characterise it |
| Shader.MixBetween | app/components/RevealCanvas.tsx:39-40 | `mix(x, y, a)` with a in [0,1] lies between x and y |
| Shader.LumaAverage | app/components/RevealCanvas.tsx:35 | the luma weights sum to 1: a grey keeps its level, luma lies between the smallest and largest channel and in [0,1] for colours in [0,1]³ |
| Shader.LumaOfMix | app/components/RevealCanvas.tsx:35-39 | the luma of `mix(vec3(l), c, a)` is `l*(1-a) + luma(c)*a` |
| Shader.SaturatedSpec | app/components/RevealCanvas.tsx:38-39 | the boost moves every channel 1.05 times as far from the luma and keeps the luma unchanged |
| Shader.ShadePreservesLuma | app/components/RevealCanvas.tsx:35-40 | whatever the mask value, the output has the sampled colour's luma; mask 0 gives pure grey, mask 1 the boosted colour |
| Shader.ShadeRange | app/components/RevealCanvas.tsx:35-40 | for colour in [0,1]³ and mask in [0,1], each output channel lies between the luma and the boosted channel, within [-0.05, 1.05] |
| Shader.SaturatedOvershoots | app/components/RevealCanvas.tsx:38-40 | fully revealed pure red has a red output above 1: the shader relies on output clamping |
| Reveal.EffectiveDpr | app/components/RevealCanvas.tsx:112 | `devicePixelRatio \|\| 1` is positive, equals the ratio whenever that is positive, and is 1 when the ratio is 0 |
| Reveal.PickSrc | app/components/RevealCanvas.tsx:178-180 | the mobile image exactly when a non-empty mobile source is given and width < 768, the default image otherwise |
| Reveal.PickSrcSameSide | app/components/RevealCanvas.tsx:185-186 | two widths on the same side of the breakpoint pick the same image |
| Reveal.ScaledSize | app/components/RevealCanvas.tsx:115-120 | a canvas dimension set to `w * dpr` is below 2^31: below 2^31 it is the integer part of `w * dpr`, and from 2^31 up to 2^32 it falls back to the attribute default (300 for width, 150 for height) |
| Reveal.RevealCanvas.constructor | app/components/RevealCanvas.tsx:99-125 | mounting starts inactive with the pointer at -9999, image size 1×1, not loaded, surface and mask sized by the first resize, and exactly one fetch of `pickSrc()` |
| Reveal.RevealCanvas.Resize | app/components/RevealCanvas.tsx:111-123 | surface and mask take the scaled viewport size and the mask is cleared; pointer and image state are unchanged |
| Reveal.RevealCanvas.SetPos | app/components/RevealCanvas.tsx:128-137 | the pointer goes to client × dpr and becomes active; from inactive the stroke origin resets to the same point, while active it is kept; nothing else changes |
| Reveal.RevealCanvas.OnLeave | app/components/RevealCanvas.tsx:140-142 | only `active` changes, to false; positions are kept, so a second call changes nothing |
| Reveal.RevealCanvas.OnTouch | app/components/RevealCanvas.tsx:143-148 | with no contacts nothing changes; otherwise the pointer state changes exactly as `setPos` on the first contact |
| Reveal.RevealCanvas.OnTouchEnd | app/components/RevealCanvas.tsx:149-151 | only `active` changes, to false; a second call changes nothing |
| Reveal.RevealCanvas.OnBreakpoint | app/components/RevealCanvas.tsx:186-193 | the current source becomes `pickSrc()`; the same choice changes nothing (`loaded` included), a new one is fetched once and closes the load gate |
| Reveal.RevealCanvas.OnLoad | app/components/RevealCanvas.tsx:163-176 | the image size becomes the natural size and the load gate opens; nothing else changes |
| Reveal.RevealCanvas.Frame | app/components/RevealCanvas.tsx:199-308 | before the image loads nothing changes and nothing is drawn; once loaded it draws with the surface and image sizes as uniforms; an active frame stamps along `Path` from the stroke origin to the pointer with `Steps` segments, and the origin then catches up; an inactive frame keeps the origin and stamps nothing; when surface and image sizes are positive, the drawn uniforms make every fragment sample the image inside [0,1]² |
| Reveal.ReactivationScenario | app/components/RevealCanvas.tsx:128-137 | the pointer leaves at A and returns at B; the next frame stamps only at B, never along A→B |
| Reveal.BreakpointScenario | app/components/RevealCanvas.tsx:178-193 | mount at 900 px, then re-evaluate at 800, 700 and 700 with a mobile image: the default is fetched once and the mobile image once, and the gate is closed until it loads |

## Left out

- Mask painting is not modelled: the per-frame fade with `rgba(0,0,0,0.02)`, the four wobbling lobes with their stretch and squash, and the six orbiting satellites (app/components/RevealCanvas.tsx:208-276). They are Canvas-2D compositing with 8-bit quantisation, trigonometry and wall-clock time. The mask is kept as its size plus `maskCleared`, which is true from a clear until the first stamp.
- Reveal.RevealCanvas.Frame: reports only the stroke's stamp centres, not the lobe offsets, radii, alphas or satellite positions painted around them, nor the fade. The `for l < lobes.length` and satellite loops exist only to paint.
- All WebGL calls are left out as a foreign GPU API: shader compilation and linking, buffers, textures, `texImage2D` uploads, uniform binding, `gl.viewport` and `drawArrays`. Texture sampling cannot be modelled, so the fragment stage is kept as the coordinates it samples at and the colour it outputs for a given sample and mask value.
- Scheduling and lifecycle are browser plumbing and are left out: `requestAnimationFrame`, teardown, listener registration, `matchMedia`, `preventDefault` and the asynchronous image fetch. A fetch is recorded in `fetches` when `img.src` is assigned, and `OnLoad` and `OnBreakpoint` are called explicitly.
- Floating point is idealised. `mediump float` and JavaScript doubles are modelled as `real`, so rounding in `Math.ceil`, the divisions and the shader is not modelled. `Math.sqrt` is replaced by the `dist` parameter of `Frame`.
- Canvas style sizes (`canvas.style.width/height`) are left out because they are CSS only.
- The source never checks that the surface or the natural image size is positive. The shader lemmas require it, and `OnLoad` accepts any natural size.
- The mount effect's early returns when the canvas element or the WebGL context is missing (app/components/RevealCanvas.tsx:47-51) are not modelled: the model starts from a successful mount.
- `app/page.tsx` and `app/layout.tsx` are markup, font loading and metadata, with no logic to model.
