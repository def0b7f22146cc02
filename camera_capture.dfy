/** The decisions of the `CameraCapture` component
    (presupuestos/components/CameraCapture.tsx): the prop defaults, which file
    is taken from the picker, and whether and to what size a photo is scaled
    down before it is handed on. Reading the file, decoding the image and
    drawing on a canvas are parameters. */
module Camera {
  import opened Wrappers

  /** Default of the `maxSidePx` prop: the longest side allowed, in pixels. */
  const DefaultMaxSidePx: nat := 2200

  /** Default of the `jpegQuality` prop. */
  const DefaultJpegQuality: real := 0.95

  /** The optional props; `None` is an omitted prop. */
  datatype CaptureProps = CaptureProps(maxSidePx: Option<nat>, jpegQuality: Option<real>)

  /** The effective settings after the destructuring defaults apply. */
  function Settings(props: CaptureProps): (s: (nat, real))
    ensures props.maxSidePx.None? ==> s.0 == 2200
    ensures props.jpegQuality.None? ==> s.1 == 0.95
    ensures props.maxSidePx.Some? ==> s.0 == props.maxSidePx.value
    ensures props.jpegQuality.Some? ==> s.1 == props.jpegQuality.value
  {
    (props.maxSidePx.GetOr(DefaultMaxSidePx), props.jpegQuality.GetOr(DefaultJpegQuality))
  }

  /** `Math.round`: the nearest integer, halves rounded up. */
  function JsRound(x: real): (n: int)
    ensures n as real - 0.5 <= x < n as real + 0.5
  {
    (x + 0.5).Floor
  }

  function Max(a: nat, b: nat): nat { if a >= b then a else b }

  /** `img.naturalWidth || img.width`: the natural size, or the layout size when it is 0. */
  function Side(natural: nat, fallback: nat): (s: nat)
    ensures s == 0 <==> natural == 0 && fallback == 0
    ensures natural != 0 ==> s == natural
  {
    if natural != 0 then natural else fallback
  }

  /** What `downscaleIfNeeded` decides for a decoded image. */
  datatype Plan = KeepOriginal | ResizeTo(width: nat, height: nat)

  /** `side * (maxSidePx / maxSide)` in exact arithmetic. */
  function Scaled(side: nat, maxSide: nat, maxSidePx: nat): real
    requires maxSide != 0
  {
    side as real * (maxSidePx as real / maxSide as real)
  }

  /** One side scaled by `maxSidePx / maxSide` and rounded: it never grows, it
      never exceeds the bound, and the longest side lands exactly on it. */
  lemma ScaledSide(side: nat, maxSide: nat, maxSidePx: nat)
    requires 0 < side <= maxSide && maxSidePx < maxSide
    ensures 0 <= JsRound(Scaled(side, maxSide, maxSidePx)) <= side
    ensures JsRound(Scaled(side, maxSide, maxSidePx)) <= maxSidePx
    ensures side == maxSide ==> JsRound(Scaled(side, maxSide, maxSidePx)) == maxSidePx
  {
    ScaledBounds(side as real, maxSidePx as real, maxSide as real);
  }

  /** Scaling by `m / bigM < 1` shrinks a side of at most `bigM` and keeps it within `m`. */
  lemma ScaledBounds(sd: real, m: real, bigM: real)
    requires 0.0 < sd <= bigM && 0.0 <= m < bigM
    ensures 0.0 <= sd * (m / bigM) < sd
    ensures sd * (m / bigM) <= m
    ensures sd == bigM ==> sd * (m / bigM) == m
  {
    var scale := m / bigM;
    assert scale * bigM == m;
    assert 0.0 <= scale by { if scale < 0.0 { MulMonoLt(scale, 0.0, bigM); } }
    MulMonoLe(0.0, scale, sd);
    ProductBounds(sd * scale, sd, m, bigM);
  }

  /** The scaled side `x`, characterised by `x * bigM == sd * m`, lies below `sd` and `m`. */
  lemma ProductBounds(x: real, sd: real, m: real, bigM: real)
    requires 0.0 < sd <= bigM && 0.0 <= m < bigM
    requires x * bigM == sd * m
    ensures x < sd && x <= m
    ensures sd == bigM ==> x == m
  {
    MulMonoLt(m, bigM, sd);
    CancelLt(x, sd, bigM);
    MulMonoLe(sd, bigM, m);
    assert bigM * m == m * bigM;
    CancelLe(x, m, bigM);
  }

  lemma MulMonoLe(a: real, b: real, c: real)
    requires a <= b && 0.0 <= c
    ensures a * c <= b * c
  {
  }

  lemma MulMonoLt(a: real, b: real, c: real)
    requires a < b && 0.0 < c
    ensures c * a < c * b
  {
  }

  lemma CancelLt(a: real, b: real, c: real)
    requires 0.0 < c && a * c < b * c
    ensures a < b
  {
    if a >= b { MulMonoLe(b, a, c); }
  }

  lemma CancelLe(a: real, b: real, c: real)
    requires 0.0 < c && a * c <= b * c
    ensures a <= b
  {
    if a > b { MulMonoLt(b, a, c); }
  }

  /** The size decision of `downscaleIfNeeded` for a `w` by `h` image. */
  function DownscalePlan(w: nat, h: nat, maxSidePx: nat): (p: Plan)
    ensures p.ResizeTo? <==> w != 0 && h != 0 && Max(w, h) > maxSidePx
    ensures p.ResizeTo? ==> p == Rescaled(w, h, maxSidePx)
  {
    if w == 0 || h == 0 then KeepOriginal
    else if Max(w, h) <= maxSidePx then KeepOriginal
    else Rescaled(w, h, maxSidePx)
  }

  /** The new size when the longer side exceeds the bound: each side times
      `maxSidePx / maxSide`, rounded. The longer side becomes exactly the bound,
      neither side grows, and each is within half a pixel of its exact value. */
  function Rescaled(w: nat, h: nat, maxSidePx: nat): (p: Plan)
    requires w != 0 && h != 0 && Max(w, h) > maxSidePx
    ensures p.ResizeTo?
    ensures Max(p.width, p.height) == maxSidePx
    ensures p.width <= w && p.height <= h
    ensures p.width as real - 0.5 <= Scaled(w, Max(w, h), maxSidePx) < p.width as real + 0.5
    ensures p.height as real - 0.5 <= Scaled(h, Max(w, h), maxSidePx) < p.height as real + 0.5
  {
    var maxSide := Max(w, h);
    ScaledSide(w, maxSide, maxSidePx);
    ScaledSide(h, maxSide, maxSidePx);
    ResizeTo(JsRound(Scaled(w, maxSide, maxSidePx)), JsRound(Scaled(h, maxSide, maxSidePx)))
  }

  /** How loading the data URL into an `Image` ends. */
  datatype ImageLoad =
    | LoadError
    | Loaded(naturalWidth: nat, width: nat, naturalHeight: nat, height: nat)

  /** `downscaleIfNeeded(dataUrl)`. `load` is the image decoded from the data
      URL, `hasContext` whether the canvas offers a 2D context, and `encode`
      stands for drawing the image at the new size and `canvas.toDataURL('image/jpeg', q)`.
      The original data URL comes back unless a resize is planned and drawn. */
  function Downscale(dataUrl: string, load: ImageLoad, hasContext: bool, maxSidePx: nat,
                     jpegQuality: real, encode: (nat, nat, real) -> string): (r: string)
    ensures load.LoadError? ==> r == dataUrl
    ensures !hasContext ==> r == dataUrl
    ensures load.Loaded? ==>
      var p := DownscalePlan(Side(load.naturalWidth, load.width), Side(load.naturalHeight, load.height), maxSidePx);
      r == if p.ResizeTo? && hasContext then encode(p.width, p.height, jpegQuality) else dataUrl
  {
    match load
    case LoadError => dataUrl
    case Loaded(nw, w, nh, h) =>
      match DownscalePlan(Side(nw, w), Side(nh, h), maxSidePx)
      case KeepOriginal => dataUrl
      case ResizeTo(width, height) =>
        if !hasContext then dataUrl else encode(width, height, jpegQuality)
  }

  /** `handleChange`: the data URL passed to `onCapture`, or `None` when
      `onCapture` is not called. Only the first selected file is read; `read`
      stands for `FileReader.readAsDataURL` (`None` when it fails, which the
      handler catches). */
  function HandleChange<F>(files: Option<seq<F>>, read: F -> Option<string>, load: string -> ImageLoad,
                           hasContext: bool, props: CaptureProps, encode: (nat, nat, real) -> string)
    : (captured: Option<string>)
    ensures files.None? || files.value == [] ==> captured.None?
    ensures files.Some? && files.value != [] ==>
      captured == match read(files.value[0])
                  case None => None
                  case Some(url) =>
                    Some(Downscale(url, load(url), hasContext, Settings(props).0, Settings(props).1, encode))
  {
    if files.None? || files.value == [] then None
    else
      match read(files.value[0])
      case None => None
      case Some(dataUrl) =>
        var (maxSidePx, jpegQuality) := Settings(props);
        Some(Downscale(dataUrl, load(dataUrl), hasContext, maxSidePx, jpegQuality, encode))
  }

  /** With the default props, a 4400 by 3300 photo is drawn at 2200 by 1650,
      and a 2000 by 1500 photo is passed on untouched. */
  lemma DefaultSizeExamples()
    ensures DownscalePlan(4400, 3300, Settings(CaptureProps(None, None)).0) == ResizeTo(2200, 1650)
    ensures DownscalePlan(2000, 1500, Settings(CaptureProps(None, None)).0) == KeepOriginal
  {
    assert 2200.0 / 4400.0 == 0.5;
    assert JsRound(3300.0 * 0.5) == 1650;
  }
}
