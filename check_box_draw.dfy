/**
 * The draw decisions of `AnimatedCheckBox.onDraw` as a pure function of the
 * style, the view size, the animation progress and the current animated hook
 * colour: which primitives a frame draws and with which scalars. The canvas
 * calls and the trigonometric end points of the hook are not modelled.
 *
 * A frame is drawn in this order: the filled circle; the checked-state border
 * arc, straight onto the canvas with its own paint; then one path holding the
 * unchecked-state border arc and the two sides of the hook, stroked with the
 * hook's paint.
 */
module CheckBoxDraw {
  import opened Platform
  import opened NumberExt

  /** The attribute values that shape a frame; none of them changes after construction. */
  datatype Style = Style(
    circleColor: Color,
    hookColor: Color,
    borderCheckedColor: Color,
    borderNotCheckedColor: Color,
    hookStrokeWidth: real,
    borderCheckedStrokeWidth: real,
    padding: real)

  /** The view's current size in pixels (`View.getWidth()`, `View.getHeight()`). */
  datatype Size = Size(width: int, height: int)

  /** The progress threshold at which the hook turns and the border arcs swap. */
  const Turn: real := 0.7

  /** The progress at rest for a checked state: 1 when checked, 0 when not. */
  function RestingProgress(checked: bool): (p: real)
  {
    if checked then 1.0 else 0.0
  }

  /** The hook colour is animated exactly when it differs from the unchecked border colour. */
  predicate UseAnimatedColor(style: Style)
  {
    style.hookColor != style.borderNotCheckedColor
  }

  // ----- Size helpers -----

  /** `padding()`: the padding on both sides together. */
  function Padding(style: Style): (p: real)
  {
    style.padding * 2.0
  }

  /** `width()`: the width inside the padding. */
  function InnerWidth(style: Style, size: Size): (w: real)
  {
    size.width as real - Padding(style)
  }

  /** `height()`: the height inside the padding. */
  function InnerHeight(style: Style, size: Size): (h: real)
  {
    size.height as real - Padding(style)
  }

  /** `centerX()`: the padding added back, so the centre is the middle of the view. */
  function CenterX(style: Style, size: Size): (x: real)
    ensures x == size.width as real / 2.0
  {
    (InnerWidth(style, size) + Padding(style)) / 2.0
  }

  /** `centerY()`: the middle of the view, whatever the padding. */
  function CenterY(style: Style, size: Size): (y: real)
    ensures y == size.height as real / 2.0
  {
    (InnerHeight(style, size) + Padding(style)) / 2.0
  }

  /** `radius()`: half the smaller inner dimension, so the circle fits inside the padding. */
  function Radius(style: Style, size: Size): (r: real)
    ensures r == Min(size.width as real - 2.0 * style.padding, size.height as real - 2.0 * style.padding) / 2.0
    ensures 2.0 * r <= InnerWidth(style, size) && 2.0 * r <= InnerHeight(style, size)
  {
    (if InnerWidth(style, size) > InnerHeight(style, size) then InnerHeight(style, size) else InnerWidth(style, size)) / 2.0
  }

  /** `radiusBorderChecked()`: computed the same way, so it always equals `radius()`. */
  function RadiusBorderChecked(style: Style, size: Size): (r: real)
    ensures r == Radius(style, size)
  {
    (if InnerWidth(style, size) > InnerHeight(style, size) then InnerHeight(style, size) else InnerWidth(style, size)) / 2.0
  }

  // ----- Frame plan -----

  /** A border arc: how much of the ring it covers, where it starts and its sweep, in degrees. */
  datatype Arc = Arc(progress: real, startAngle: real, sweepAngle: real)

  /** One side of the hook: the fraction driving it and the length of its line. */
  datatype Stroke = Stroke(fraction: real, lineRadius: real)

  /** The left side of the hook grows from the ring below the turn, and retracts toward it after. */
  datatype LeftHook = Growing(stroke: Stroke) | Shrinking(stroke: Stroke)

  /** Everything one frame draws, as booleans (an `Option` present or not) and scalars. */
  datatype Frame = Frame(
    centerX: real,
    centerY: real,
    radius: real,
    circleColor: Color,
    circleAlpha: int,
    checkedArc: Option<Arc>,
    checkedArcRadius: real,
    checkedArcColor: Color,
    checkedArcStrokeWidth: real,
    uncheckedArc: Option<Arc>,
    leftHook: LeftHook,
    rightHook: Option<Stroke>,
    pathColor: Color,
    pathAlpha: int,
    pathStrokeWidth: real)

  /** `drawCircle`: the circle's alpha, the progress scaled to 0..255 and truncated. */
  function CircleAlpha(progress: real): (alpha: int)
    ensures 0.0 <= progress <= 1.0 ==> 0 <= alpha <= 255
    ensures progress == 0.0 ==> alpha == 0
    ensures progress == 1.0 ==> alpha == 255
  {
    Trunc(progress * 255.0)
  }

  /** The circle never fades out while progress grows. */
  lemma CircleAlphaMonotone(p: real, q: real)
    requires 0.0 <= p <= q
    ensures CircleAlpha(p) <= CircleAlpha(q)
  {
  }

  /**
   * `drawCircleBorder`, unchecked state: drawn only below the turn; the arc
   * covers the whole ring at progress 0 and falls linearly to nothing at the
   * turn, always ending at 200 degrees.
   */
  function UncheckedArc(progress: real): (r: Option<Arc>)
    ensures r.Some? <==> progress < Turn
    ensures r.Some? ==> 0.0 <= r.value.progress <= 1.0
    ensures r.Some? ==> r.value.sweepAngle == -360.0 * r.value.progress
    ensures r.Some? ==> r.value.startAngle + r.value.sweepAngle == 200.0
    ensures progress <= 0.0 ==> r == Some(Arc(1.0, 560.0, -360.0))
    ensures 0.0 <= progress < Turn ==> r.value.progress * Turn == Turn - progress
  {
    if progress < Turn then
      var arcProgress := Clamp(ToRange(1.0 - progress, 0.3, 1.0, 0.0, 1.0), 0.0, 1.0);
      Some(Arc(arcProgress, 200.0 + 360.0 * arcProgress, -360.0 * arcProgress))
    else
      None
  }

  /** The unchecked arc shrinks as progress grows. */
  lemma UncheckedArcShrinks(p: real, q: real)
    requires p <= q < Turn
    ensures UncheckedArc(q).value.progress <= UncheckedArc(p).value.progress
  {
  }

  /**
   * `drawCircleBorder`, checked state: drawn only when a checked border is
   * configured and progress is past the turn; it grows from nothing at the
   * turn to the whole ring at progress 1, always starting at 200 degrees.
   */
  function CheckedArc(style: Style, progress: real): (r: Option<Arc>)
    ensures r.Some? <==> style.borderCheckedStrokeWidth > 0.0 && progress > Turn
    ensures r.Some? ==> 0.0 <= r.value.progress <= 1.0
    ensures r.Some? ==> r.value.startAngle == 200.0 && r.value.sweepAngle == -360.0 * r.value.progress
    ensures r.Some? && progress <= 1.0 ==> r.value.progress * 0.3 == progress - Turn
    ensures r.Some? && progress >= 1.0 ==> r.value.progress == 1.0
  {
    if style.borderCheckedStrokeWidth > 0.0 && progress > Turn then
      var arcProgressBorder := Clamp(ToRange(1.0 - progress, 0.0, 0.3, 1.0, 0.0), 0.0, 1.0);
      Some(Arc(arcProgressBorder, 200.0, -360.0 * arcProgressBorder))
    else
      None
  }

  /** The checked arc grows as progress grows. */
  lemma CheckedArcGrows(style: Style, p: real, q: real)
    requires style.borderCheckedStrokeWidth > 0.0 && Turn < p <= q
    ensures CheckedArc(style, p).value.progress <= CheckedArc(style, q).value.progress
  {
  }

  /**
   * `drawLeftHook`: below the turn the left side grows with fraction
   * progress / 0.7; from the turn on it retracts, its line shortened by a
   * fraction that reaches one half at progress 1.
   */
  function LeftHookOf(progress: real, radius: real): (h: LeftHook)
    ensures h.Growing? <==> progress < Turn
    ensures h.Growing? ==> h.stroke.lineRadius == radius * h.stroke.fraction
    ensures h.Shrinking? ==> h.stroke.lineRadius == radius * (1.0 - h.stroke.fraction)
    ensures h.Growing? ==> h.stroke.fraction * Turn == progress
    ensures h.Shrinking? ==> h.stroke.fraction * 0.6 == progress - Turn
    ensures 0.0 <= progress < Turn ==> 0.0 <= h.stroke.fraction < 1.0
    ensures Turn <= progress <= 1.0 ==> 0.0 <= h.stroke.fraction <= 0.5
  {
    if progress < Turn then
      var fraction := ToRange(progress, 0.0, Turn, 0.0, 1.0);
      Growing(Stroke(fraction, radius * fraction))
    else
      var fraction := ToRange(progress, Turn, 1.0, 0.0, 0.5);
      Shrinking(Stroke(fraction, radius * (1.0 - fraction)))
  }

  /**
   * `drawRightHook`: drawn only from the turn on, growing with a fraction that
   * reaches three quarters at progress 1.
   */
  function RightHookOf(progress: real, radius: real): (r: Option<Stroke>)
    ensures r.Some? <==> progress >= Turn
    ensures r.Some? ==> r.value.lineRadius == radius * r.value.fraction
    ensures r.Some? ==> r.value.fraction * 0.4 == progress - Turn
    ensures Turn <= progress <= 1.0 ==> 0.0 <= r.value.fraction <= 0.75
    ensures progress == 1.0 ==> r.value.fraction == 0.75
  {
    if progress >= Turn then
      var fraction := ToRange(progress, Turn, 1.0, 0.0, 0.75);
      Some(Stroke(fraction, radius * fraction))
    else
      None
  }

  /** Both sides of the hook move monotonically with progress within each phase. */
  lemma HookFractionsMonotone(p: real, q: real, radius: real)
    requires p <= q
    ensures q < Turn ==> LeftHookOf(p, radius).stroke.fraction <= LeftHookOf(q, radius).stroke.fraction
    ensures Turn <= p ==> LeftHookOf(p, radius).stroke.fraction <= LeftHookOf(q, radius).stroke.fraction
    ensures Turn <= p ==> RightHookOf(p, radius).value.fraction <= RightHookOf(q, radius).value.fraction
  {
  }

  /** `drawHook`: the path's colour is the animated colour in animated mode, else the hook colour. */
  function PathColor(style: Style, colorAnimation: Color): (c: Color)
  {
    if UseAnimatedColor(style) then colorAnimation else style.hookColor
  }

  /** `onDraw`: the frame for a size, a progress and the current animated hook colour. */
  function FrameOf(style: Style, size: Size, progress: real, colorAnimation: Color): (f: Frame)
    ensures f.pathAlpha == 255 && f.pathStrokeWidth == style.hookStrokeWidth
    ensures !(f.uncheckedArc.Some? && f.checkedArc.Some?)
    ensures f.leftHook.Shrinking? <==> f.rightHook.Some?
    ensures f.uncheckedArc.Some? ==> f.leftHook.Growing?
    ensures f.checkedArc.Some? ==> f.rightHook.Some?
    ensures f.centerX == size.width as real / 2.0 && f.centerY == size.height as real / 2.0
    ensures f.checkedArcRadius == f.radius
    ensures !UseAnimatedColor(style) ==> f.pathColor == style.hookColor
    ensures UseAnimatedColor(style) ==> f.pathColor == colorAnimation
  {
    var radius := Radius(style, size);
    Frame(
      CenterX(style, size), CenterY(style, size), radius,
      style.circleColor, CircleAlpha(progress),
      CheckedArc(style, progress), RadiusBorderChecked(style, size),
      style.borderCheckedColor, style.borderCheckedStrokeWidth,
      UncheckedArc(progress),
      LeftHookOf(progress, radius), RightHookOf(progress, radius),
      PathColor(style, colorAnimation), 255, style.hookStrokeWidth)
  }

  /**
   * At rest the frame shows the state: unchecked, a transparent circle, the
   * whole unchecked ring and a hook of zero length; checked, an opaque circle,
   * the whole checked ring if configured, the left side retracted by half and
   * the right side at three quarters.
   */
  lemma FrameAtRest(style: Style, size: Size, checked: bool, colorAnimation: Color)
    ensures var f := FrameOf(style, size, RestingProgress(checked), colorAnimation);
      if checked then
        && f.circleAlpha == 255
        && f.uncheckedArc.None?
        && f.checkedArc == (if style.borderCheckedStrokeWidth > 0.0 then Some(Arc(1.0, 200.0, -360.0)) else None)
        && f.leftHook == Shrinking(Stroke(0.5, f.radius * 0.5))
        && f.rightHook == Some(Stroke(0.75, f.radius * 0.75))
      else
        && f.circleAlpha == 0
        && f.uncheckedArc == Some(Arc(1.0, 560.0, -360.0))
        && f.checkedArc.None?
        && f.leftHook == Growing(Stroke(0.0, 0.0))
        && f.rightHook.None?
  {
  }
}
