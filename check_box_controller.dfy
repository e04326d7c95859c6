/**
 * The toggle/animation controller of `AnimatedCheckBox`: the checked state,
 * the animation progress, the animated hook colour, and the `ValueAnimator`
 * that drives them, as a class whose methods change its fields the way the
 * widget's methods and listeners do.
 *
 * The animator is abstract state. The host's frame clock is replaced by
 * explicit calls: `Update` is one frame delivered to the update listener,
 * `Finish` is the animator's last frame followed by its end listeners, and
 * `Cancel` is `ValueAnimator.cancel()` with the widget's cancel listener.
 * Calls to the change callback and to `invalidate()` are recorded in the
 * fields `notifications` and `redraws`.
 */
module CheckBoxController {
  import opened Platform
  import opened NumberExt
  import opened CheckBoxDraw

  /** Identifies a callback registered with `setOnChangeListener`. */
  type ListenerId = nat

  /** The default callback `{}` the widget starts with. */
  const NoOpListener: ListenerId := 0

  /** One invocation of the change callback: which callback, with which checked value. */
  datatype Notification = Notification(listener: ListenerId, checked: bool)

  /**
   * The `ValueAnimator` as the widget uses it: whether it runs, the float
   * values it animates between, its duration in milliseconds, and whether the
   * widget's cancel/end listener is still attached to it.
   */
  datatype Animator = Animator(
    running: bool,
    startValue: real,
    endValue: real,
    duration: int,
    listenersAttached: bool)
  {
    /** `animatedValue` for an interpolated fraction: the float evaluator's blend. */
    function ValueAt(fraction: real): (v: real)
      ensures fraction == 0.0 ==> v == startValue
      ensures fraction == 1.0 ==> v == endValue
    {
      Lerp(startValue, endValue, fraction)
    }
  }

  /**
   * As the fraction grows through [0, 1], the animated value stays between
   * the two ends and never moves away from the end value.
   */
  lemma ValueApproachesEnd(animator: Animator, earlier: real, later: real)
    requires 0.0 <= earlier <= later <= 1.0
    ensures Between(animator.startValue, animator.endValue, animator.ValueAt(later))
    ensures Abs(animator.endValue - animator.ValueAt(later)) <= Abs(animator.endValue - animator.ValueAt(earlier))
  {
    var span := animator.endValue - animator.startValue;
    LerpBetween(animator.startValue, animator.endValue, later);
    AbsScale(span, 1.0 - later);
    AbsScale(span, 1.0 - earlier);
    ScaleMonotone(Abs(span), 1.0 - later, 1.0 - earlier);
  }

  /**
   * The fraction of the frame `ValueAnimator.start()` delivers at once: its
   * `setCurrentPlayTime(0)` is fraction 0 of a positive duration and the
   * final fraction 1 of a zero one, and the interpolator maps both to
   * themselves.
   */
  function FirstFraction(duration: int): (f: real)
    ensures 0.0 <= f <= 1.0
    ensures f == 1.0 <==> duration <= 0
  {
    if duration > 0 then 0.0 else 1.0
  }

  /**
   * `startAnimation`: the animator's duration is the configured duration
   * scaled by the distance still to travel, truncated to a whole `Long`.
   */
  function EffectiveDuration(duration: int, progress: real, endValue: real): (d: int)
    ensures 0 <= duration ==> 0 <= d
  {
    Trunc(duration as real * Abs(endValue - progress))
  }

  /** From anywhere in [0, 1] an animation never takes longer than the configured duration. */
  lemma EffectiveDurationBounded(duration: int, progress: real, endValue: real)
    requires 0 <= duration
    requires 0.0 <= progress <= 1.0 && 0.0 <= endValue <= 1.0
    ensures 0 <= EffectiveDuration(duration, progress, endValue) <= duration
  {
    var distance := Abs(endValue - progress);
    var whole := duration as real;
    assert distance <= 1.0;
    ScaleWithinUnit(distance, whole);
    var scaled := whole * distance;
    assert scaled == distance * whole;
    assert 0.0 <= scaled <= whole;
    TruncMonotone(scaled, duration as real);
    TruncOfInt(duration);
  }

  /** Starting from the opposite end, an animation takes the whole configured duration. */
  lemma EffectiveDurationFullSweep(duration: int, checked: bool)
    ensures EffectiveDuration(duration, RestingProgress(!checked), RestingProgress(checked)) == duration
  {
  }

  /** Already at the target, an animation takes no time. */
  lemma EffectiveDurationAtTarget(duration: int, progress: real)
    ensures EffectiveDuration(duration, progress, progress) == 0
  {
  }

  /** Reversing from halfway through a 250 ms animation takes 125 ms. */
  lemma EffectiveDurationHalfway()
    ensures EffectiveDuration(250, 0.5, RestingProgress(false)) == 125
  {
  }

  /**
   * The HSV triple a frame produces in animated-colour mode: unchecking moves
   * from the hook colour to the unchecked border colour, checking moves back.
   */
  function AnimatedHsv(hookHsv: Hsv, borderHsv: Hsv, checked: bool, fraction: real): (hsv: seq<real>)
  {
    if !checked then LerpHsv(hookHsv.Components(), borderHsv.Components(), fraction)
    else LerpHsv(borderHsv.Components(), hookHsv.Components(), fraction)
  }

  /** A colour animation starts at the colour being left and ends at the colour of the new state. */
  lemma AnimatedHsvEnds(hookHsv: Hsv, borderHsv: Hsv, checked: bool)
    ensures AnimatedHsv(hookHsv, borderHsv, checked, 0.0)
         == (if checked then borderHsv else hookHsv).Components()
    ensures AnimatedHsv(hookHsv, borderHsv, checked, 1.0)
         == (if checked then hookHsv else borderHsv).Components()
  {
  }

  /** `Color.colorToHSV(color, hsv)`: the conversion is a parameter; it writes the first three components. */
  method ColorToHsv(color: Color, hsv: array<real>, colorToHsv: Color -> Hsv)
    requires hsv.Length == 3
    modifies hsv
    ensures hsv[..] == colorToHsv(color).Components()
  {
    var c := colorToHsv(color);
    hsv[0], hsv[1], hsv[2] := c.h, c.s, c.v;
  }

  class AnimatedCheckBox {
    /** The attribute values; the widget never changes them after construction. */
    const style: Style
    /** Android's `Color.colorToHSV`, which the model cannot see. */
    const colorToHsv: Color -> Hsv
    /** Android's `Color.HSVToColor`, which the model cannot see. */
    const hsvToColor: seq<real> -> Color
    const colorFrom: array<real>
    const colorTo: array<real>
    const colorAnimationHsv: array<real>

    var duration: int
    var checked: bool
    var onChange: ListenerId
    var animationProgress: real
    var colorAnimation: Color
    var animator: Animator

    /** Every invocation of the change callback so far, oldest first. */
    var notifications: seq<Notification>
    /** How many redraws (`invalidate()`) the widget has requested. */
    var redraws: nat

    /** The HSV buffers: three components each, the interpolation target distinct from its inputs. */
    ghost predicate BuffersValid()
      reads this, colorFrom, colorTo
    {
      && colorFrom.Length == 3 && colorTo.Length == 3 && colorAnimationHsv.Length == 3
      && colorAnimationHsv != colorFrom && colorAnimationHsv != colorTo
      && (UseAnimatedColor(style) ==>
            && colorFrom[..] == colorToHsv(style.hookColor).Components()
            && colorTo[..] == colorToHsv(style.borderNotCheckedColor).Components())
    }

    /**
     * The object invariant: progress stays in [0, 1]; a running animation heads
     * for the resting progress of the checked state and progress lies between
     * its two ends; with no animation running, progress is at rest.
     */
    ghost predicate Valid()
      reads this, colorFrom, colorTo
    {
      && BuffersValid()
      && 0.0 <= animationProgress <= 1.0
      && 0.0 <= animator.startValue <= 1.0
      && (animator.running ==>
            && animator.endValue == RestingProgress(checked)
            && Between(animator.startValue, animator.endValue, animationProgress))
      && (!animator.running ==> animationProgress == RestingProgress(checked))
    }

    /**
     * The widget as constructed from its attribute values: progress and the
     * animated colour match the initial checked state, and in animated-colour
     * mode the two HSV endpoints hold the hook and unchecked border colours.
     */
    constructor (style: Style, duration: int, checked: bool,
                 colorToHsv: Color -> Hsv, hsvToColor: seq<real> -> Color)
      ensures Valid()
      ensures fresh(colorFrom) && fresh(colorTo) && fresh(colorAnimationHsv)
      ensures this.style == style && this.colorToHsv == colorToHsv && this.hsvToColor == hsvToColor
      ensures this.duration == duration && this.checked == checked
      ensures animationProgress == RestingProgress(checked)
      ensures colorAnimation == (if checked then style.hookColor else style.borderNotCheckedColor)
      ensures !animator.running && animator.listenersAttached
      ensures onChange == NoOpListener && notifications == [] && redraws == 0
    {
      this.style := style;
      this.colorToHsv := colorToHsv;
      this.hsvToColor := hsvToColor;
      this.duration := duration;
      this.checked := checked;
      onChange := NoOpListener;
      colorAnimation := if checked then style.hookColor else style.borderNotCheckedColor;
      animationProgress := RestingProgress(checked);
      colorFrom := new real[3](_ => 0.0);
      colorTo := new real[3](_ => 0.0);
      colorAnimationHsv := new real[3](_ => 0.0);
      animator := Animator(false, 0.0, 0.0, 0, true);
      notifications := [];
      redraws := 0;
      new;
      if UseAnimatedColor(style) {
        ColorToHsv(style.hookColor, colorFrom, colorToHsv);
        ColorToHsv(style.borderNotCheckedColor, colorTo, colorToHsv);
      }
    }

    /** `setOnChangeListener`: replaces the change callback and nothing else. */
    method SetOnChangeListener(listener: ListenerId)
      requires Valid()
      modifies this`onChange
      ensures Valid()
      ensures onChange == listener
    {
      onChange := listener;
    }

    /** `isAnimating`: whether the animator runs; when it does not, progress is at rest. */
    function IsAnimating(): (r: bool)
      reads this, colorFrom, colorTo
      requires Valid()
      ensures !r ==> animationProgress == RestingProgress(checked)
      ensures r ==> Between(animator.startValue, RestingProgress(checked), animationProgress)
    {
      animator.running
    }

    /**
     * `updateState`: sets the checked state, cancels any running animation,
     * then either starts an animation from the current progress toward the new
     * resting progress, or snaps progress there. It never calls the change
     * callback. A snap leaves the colour alone and requests no redraw; a
     * started animator delivers its first frame at once, which keeps the
     * progress where it was when the duration is positive, jumps to rest
     * when it is zero, and requests one redraw.
     */
    method UpdateState(checked: bool, animate: bool)
      requires Valid()
      modifies this`checked, this`animator, this`animationProgress
      modifies this`colorAnimation, this`redraws, colorAnimationHsv
      ensures Valid()
      ensures this.checked == checked
      ensures animator.listenersAttached == (old(animator.listenersAttached) && !old(animator.running))
      ensures !animate ==>
        && animator == old(animator).(running := false,
                                      listenersAttached := old(animator.listenersAttached) && !old(animator.running))
        && animationProgress == RestingProgress(checked)
        && colorAnimation == old(colorAnimation)
        && colorAnimationHsv[..] == old(colorAnimationHsv[..])
        && redraws == old(redraws)
      ensures animate ==>
        && animator.running
        && animator.startValue == old(animationProgress)
        && animator.endValue == RestingProgress(checked)
        && animator.duration == EffectiveDuration(duration, old(animationProgress), RestingProgress(checked))
        && animationProgress == (if animator.duration > 0 then old(animationProgress) else RestingProgress(checked))
        && redraws == old(redraws) + 1
      ensures animate && UseAnimatedColor(style) ==>
        && colorAnimationHsv[..] == AnimatedHsv(colorToHsv(style.hookColor), colorToHsv(style.borderNotCheckedColor),
                                                checked, FirstFraction(animator.duration))
        && colorAnimation == hsvToColor(colorAnimationHsv[..])
      ensures animate && !UseAnimatedColor(style) ==>
        colorAnimation == old(colorAnimation) && colorAnimationHsv[..] == old(colorAnimationHsv[..])
    {
      this.checked := checked;
      Cancel();
      if animate {
        StartAnimation();
        Update(FirstFraction(animator.duration));
      } else {
        animationProgress := RestingProgress(checked);
      }
    }

    /** The click listener: toggles the checked state with an animation. */
    method Click()
      requires Valid()
      modifies this`checked, this`animator, this`animationProgress
      modifies this`colorAnimation, this`redraws, colorAnimationHsv
      ensures Valid()
      ensures checked == !old(checked) && animator.running
      ensures animator.listenersAttached == (old(animator.listenersAttached) && !old(animator.running))
      ensures animator.startValue == old(animationProgress) && animator.endValue == RestingProgress(checked)
      ensures animator.duration == EffectiveDuration(duration, old(animationProgress), RestingProgress(checked))
      ensures animationProgress == (if animator.duration > 0 then old(animationProgress) else RestingProgress(checked))
      ensures redraws == old(redraws) + 1
      ensures UseAnimatedColor(style) ==>
        && colorAnimationHsv[..] == AnimatedHsv(colorToHsv(style.hookColor), colorToHsv(style.borderNotCheckedColor),
                                                checked, FirstFraction(animator.duration))
        && colorAnimation == hsvToColor(colorAnimationHsv[..])
      ensures !UseAnimatedColor(style) ==>
        colorAnimation == old(colorAnimation) && colorAnimationHsv[..] == old(colorAnimationHsv[..])
    {
      UpdateState(!checked, true);
    }

    /**
     * `ValueAnimator.cancel()`: a running animator first calls the widget's
     * cancel listener, which removes all of the animator's listeners, so the
     * end listener that `cancel()` would call next is already gone, and it
     * stays gone for every later animation. An animator that is not running
     * calls nothing. This is a step of `UpdateState`, the only place the
     * widget cancels its animator, not an operation of the widget on its own:
     * it does not keep `Valid()` by itself, since `UpdateState` settles the
     * progress right after it.
     */
    method Cancel()
      modifies this`animator
      ensures animator == old(animator).(running := false,
                                         listenersAttached := old(animator.listenersAttached) && !old(animator.running))
    {
      if animator.running && animator.listenersAttached {
        animator := animator.(listenersAttached := false);
      }
      animator := animator.(running := false);
    }

    /**
     * `startAnimation`: animates from the current progress to the resting
     * progress of the checked state, over the configured duration scaled by
     * the distance.
     */
    method StartAnimation()
      requires BuffersValid() && 0.0 <= animationProgress <= 1.0
      modifies this`animator
      ensures Valid()
      ensures animator == old(animator).(
        running := true,
        startValue := animationProgress,
        endValue := RestingProgress(checked),
        duration := EffectiveDuration(duration, animationProgress, RestingProgress(checked)))
    {
      var endValue := RestingProgress(checked);
      var fraction := Abs(endValue - animationProgress);
      animator := animator.(startValue := animationProgress, endValue := endValue);
      animator := animator.(duration := Trunc(duration as real * fraction));
      animator := animator.(running := true);
    }

    /**
     * `update`: one frame of the running animator, with the interpolated
     * fraction in [0, 1]. Progress becomes the animated value; in
     * animated-colour mode the colour is re-interpolated in the direction of
     * the checked state; a redraw is requested.
     */
    method Update(fraction: real)
      requires Valid() && animator.running && 0.0 <= fraction <= 1.0
      modifies this`animationProgress, this`colorAnimation, this`redraws, colorAnimationHsv
      ensures Valid()
      ensures animationProgress == animator.ValueAt(fraction)
      ensures UseAnimatedColor(style) ==>
        && colorAnimationHsv[..] == AnimatedHsv(colorToHsv(style.hookColor), colorToHsv(style.borderNotCheckedColor), checked, fraction)
        && colorAnimation == hsvToColor(colorAnimationHsv[..])
      ensures !UseAnimatedColor(style) ==>
        colorAnimation == old(colorAnimation) && colorAnimationHsv[..] == old(colorAnimationHsv[..])
      ensures redraws == old(redraws) + 1
    {
      LerpBetween(animator.startValue, animator.endValue, fraction);
      animationProgress := animator.ValueAt(fraction);
      if UseAnimatedColor(style) {
        if !checked {
          colorAnimation := AnimateColor(colorAnimationHsv, colorFrom, colorTo, fraction, hsvToColor);
        } else {
          colorAnimation := AnimateColor(colorAnimationHsv, colorTo, colorFrom, fraction, hsvToColor);
        }
      }
      redraws := redraws + 1;
    }

    /**
     * Natural completion: the animator's last frame (fraction 1), then its end
     * listener, which calls the change callback with the checked state, if
     * that listener is still attached.
     */
    method Finish()
      requires Valid() && animator.running
      modifies this`animationProgress, this`colorAnimation, this`redraws, colorAnimationHsv
      modifies this`animator, this`notifications
      ensures Valid()
      ensures animator == old(animator).(running := false)
      ensures animationProgress == RestingProgress(checked)
      ensures notifications == old(notifications)
        + (if old(animator.listenersAttached) then [Notification(onChange, checked)] else [])
      ensures UseAnimatedColor(style) ==>
        && colorAnimationHsv[..] == colorToHsv(if checked then style.hookColor else style.borderNotCheckedColor).Components()
        && colorAnimation == hsvToColor(colorAnimationHsv[..])
      ensures !UseAnimatedColor(style) ==>
        colorAnimation == old(colorAnimation) && colorAnimationHsv[..] == old(colorAnimationHsv[..])
      ensures redraws == old(redraws) + 1
    {
      Update(1.0);
      AnimatedHsvEnds(colorToHsv(style.hookColor), colorToHsv(style.borderNotCheckedColor), checked);
      animator := animator.(running := false);
      if animator.listenersAttached {
        notifications := notifications + [Notification(onChange, checked)];
      }
    }

    /** `updateDuration`: stores the duration for later animations and requests a redraw. */
    method UpdateDuration(duration: int)
      requires Valid()
      modifies this`duration, this`redraws
      ensures Valid()
      ensures this.duration == duration && redraws == old(redraws) + 1
    {
      this.duration := duration;
      redraws := redraws + 1;
    }

    /**
     * `onDraw`: the frame for the current state. At rest it shows the checked
     * state: an opaque circle and the right side of the hook exactly when
     * checked, the unchecked ring exactly when not.
     */
    function CurrentFrame(size: Size): (f: Frame)
      reads this, colorFrom, colorTo
      requires Valid()
      ensures !IsAnimating() ==>
        && (f.circleAlpha == 255 <==> checked)
        && (f.circleAlpha == 0 <==> !checked)
        && (f.uncheckedArc.Some? <==> !checked)
        && (f.rightHook.Some? <==> checked)
    {
      FrameAtRest(style, size, checked, colorAnimation);
      FrameOf(style, size, animationProgress, colorAnimation)
    }
  }

  /** A click that runs to completion tells the registered callback the new state, once. */
  method ClickRunsToCompletion(style: Style, colorToHsv: Color -> Hsv, hsvToColor: seq<real> -> Color,
                               listener: ListenerId)
    returns (checked: bool, progress: real, log: seq<Notification>)
    ensures checked && progress == 1.0
    ensures log == [Notification(listener, true)]
  {
    var box := new AnimatedCheckBox(style, 250, false, colorToHsv, hsvToColor);
    box.SetOnChangeListener(listener);
    box.Click();
    box.Update(0.5);
    box.Finish();
    checked, progress, log := box.checked, box.animationProgress, box.notifications;
  }

  /**
   * A click that interrupts a running animation cancels it: that animation
   * never reports, and neither does any later one, because the cancel
   * listener detached the end listener for good.
   */
  method InterruptedClickSilencesCallback(style: Style, colorToHsv: Color -> Hsv, hsvToColor: seq<real> -> Color,
                                          listener: ListenerId)
    returns (checked: bool, progress: real, log: seq<Notification>)
    ensures checked && progress == 1.0
    ensures log == []
  {
    var box := new AnimatedCheckBox(style, 250, false, colorToHsv, hsvToColor);
    box.SetOnChangeListener(listener);
    box.Click();
    box.Update(0.5);
    box.Click();
    box.Finish();
    box.Click();
    box.Finish();
    checked, progress, log := box.checked, box.animationProgress, box.notifications;
  }

  /**
   * Checking and unchecking without animation returns to the initial state,
   * silently: the animator, the animated colour and its HSV buffer are as
   * they were right after construction.
   */
  method SnapRoundTrip(style: Style, colorToHsv: Color -> Hsv, hsvToColor: seq<real> -> Color)
    returns (checked: bool, progress: real, running: bool, log: seq<Notification>, redraws: nat,
             animatorBefore: Animator, animatorAfter: Animator,
             colorBefore: Color, colorAfter: Color,
             hsvBefore: seq<real>, hsvAfter: seq<real>)
    ensures !checked && progress == 0.0 && !running
    ensures log == [] && redraws == 0
    ensures animatorAfter == animatorBefore
    ensures colorAfter == colorBefore == style.borderNotCheckedColor
    ensures hsvAfter == hsvBefore
  {
    var box := new AnimatedCheckBox(style, 250, false, colorToHsv, hsvToColor);
    animatorBefore, colorBefore, hsvBefore := box.animator, box.colorAnimation, box.colorAnimationHsv[..];
    box.UpdateState(true, false);
    box.UpdateState(false, false);
    checked, progress, running := box.checked, box.animationProgress, box.animator.running;
    log, redraws := box.notifications, box.redraws;
    animatorAfter, colorAfter, hsvAfter := box.animator, box.colorAnimation, box.colorAnimationHsv[..];
  }
}
