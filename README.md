# AnimatedCheckBox in Dafny

A model of the core of AnimatedCheckBox, an Android widget: a circular check
box that morphs between an unchecked ring with a check-mark hook and a filled,
coloured checked circle, driven by one animation progress scalar in [0, 1].

The model has four modules:

- `Platform` (`platform.dfy`): the packed colour type, the HSV triple, and
  Kotlin's truncating `toInt`/`toLong` (`Trunc`).
- `NumberExt` (`number_ext.dfy`): the extension functions `toRange` (an affine
  remap), `clamp`, and `animateColor`. `animateColor` writes indices 0 to 2 of
  a `FloatArray` receiver in place, so it is a method over an `array<real>`.
- `CheckBoxDraw` (`check_box_draw.dfy`): the draw decisions of `onDraw` as pure
  functions of the style, the view size, the progress and the animated hook
  colour. `FrameOf` returns a `Frame` record that says which primitives are
  drawn (the circle, the two border arcs, the two sides of the hook) and with
  which alpha, arc progress, angles, hook fractions, centre and radius. The
  size helpers `centerX`, `centerY`, `radius` and `radiusBorderChecked` are
  modelled here too.
- `CheckBoxController` (`check_box_controller.dfy`): the class
  `AnimatedCheckBox`. Its fields are `checked`, `animationProgress`,
  `duration`, `colorAnimation`, the stored `onChange`, the three HSV buffers,
  and the `ValueAnimator` as an abstract `Animator` value. The animator value
  holds the running flag, the start and end values, the effective duration,
  and whether the widget's cancel/end listener is still attached.

The animator is driven by explicit calls instead of Android's frame clock:

- `Update(fraction)` is one frame delivered to the update listener.
- `Finish()` is natural completion: the last frame at fraction 1, then the end
  listener.
- `Cancel()` is `ValueAnimator.cancel()` together with the widget's cancel
  listener.

Calls to the change callback are recorded in the field `notifications`.
Redraw requests (`invalidate()`) are counted in the field `redraws`.

The object invariant `Valid()` says that progress stays in [0, 1]. While an
animation runs, it heads for the resting progress of `checked` (1 when
checked, 0 when not), and progress lies between the animation's two ends.
With no animation running, progress is exactly at rest.

Notes on what the code does:

- The colour direction: unchecking interpolates from the hook colour to the
  unchecked border colour, and checking goes back. The initial
  `colorAnimation` follows the same rule: the hook colour when checked, the
  unchecked border colour when not.
- The unchecked arc's progress is the clamped remap of `1 - progress` from
  [0.3, 1] to [0, 1]. So the arc covers the whole ring only at progress 0 and
  falls linearly to nothing at 0.7. It is not full for every progress below 0.3.
- The checked arc's progress is the remap of `1 - progress` from [0, 0.3] to
  [1, 0]. So the arc grows from the 0.7 threshold, not from 0.3. In this
  revision it is drawn only when `borderCheckedStrokeWidth > 0` and
  `progress > 0.7`.
- The circle alpha is truncated (`toInt`), not rounded.
- No flag skips the animation of an animated state change; stroke widths and
  durations are not validated.
- Starting an animation delivers its first frame at once: progress stays
  where it was (or jumps to rest when the scaled duration truncates to 0);
  in animated-colour mode the colour is set to the colour being left, or to
  the new state's colour when the scaled duration truncates to 0; and one
  redraw is requested. A change without animation neither touches the colour nor
  requests a redraw.
- Cancelling a running animation calls `removeAllListeners()`. That removes
  the one listener that reports completion, and nothing adds it back. So after
  the first interrupted animation, `onChange` is never called again.
  `InterruptedClickSilencesCallback` shows this.

## Model

| member | source | states |
|---|---|---|
| `NumberExt.ToRangeEndpoints` | animatedcheckbox/src/main/java/it/emperor/animatedcheckbox/extension/NumberExt.kt:5-6 | `toRange` maps `oldMin` to `newMin` and `oldMax` to `newMax` when the old bounds differ |
| `NumberExt.ToRange` | animatedcheckbox/src/main/java/it/emperor/animatedcheckbox/extension/NumberExt.kt:5-6 | the definition of `toRange`: the affine remap `(x - oldMin)·(newMax - newMin)/(oldMax - oldMin) + newMin`; its endpoints, bounds, inverse and order are proved in the `ToRange*` lemmas |
| `NumberExt.ToRangeBetween` | animatedcheckbox/src/main/java/it/emperor/animatedcheckbox/extension/NumberExt.kt:5-6 | a value between the old bounds maps to a value between the new bounds, in either orientation |
| `NumberExt.ToRangeRoundTrip` | animatedcheckbox/src/main/java/it/emperor/animatedcheckbox/extension/NumberExt.kt:5-6 | remapping back with the bounds swapped returns the original value |
| `NumberExt.ToRangeMonotone` | animatedcheckbox/src/main/java/it/emperor/animatedcheckbox/extension/NumberExt.kt:5-6 | with increasing old bounds and increasing new bounds, the remap preserves order |
| `NumberExt.ToRangeAntitone` | animatedcheckbox/src/main/java/it/emperor/animatedcheckbox/extension/NumberExt.kt:5-6 | with increasing old bounds and decreasing new bounds, the remap reverses order |
| `NumberExt.Clamp` | animatedcheckbox/src/main/java/it/emperor/animatedcheckbox/extension/NumberExt.kt:8-12 | when `min <= max` the result is in [min, max]; a value already in range is returned unchanged; the result is always the value, `min` or `max` |
| `NumberExt.ClampIdempotent` | animatedcheckbox/src/main/java/it/emperor/animatedcheckbox/extension/NumberExt.kt:8-12 | clamping twice gives the same result as clamping once |
| `NumberExt.ClampMonotone` | animatedcheckbox/src/main/java/it/emperor/animatedcheckbox/extension/NumberExt.kt:8-12 | clamping preserves order |
| `NumberExt.Lerp` | animatedcheckbox/src/main/java/it/emperor/animatedcheckbox/extension/NumberExt.kt:15 | one component of the interpolation: fraction 0 gives `from`, fraction 1 gives `to` |
| `NumberExt.LerpBetween` | animatedcheckbox/src/main/java/it/emperor/animatedcheckbox/extension/NumberExt.kt:15 | for a fraction in [0, 1] the interpolated component lies between `from` and `to` |
| `NumberExt.LerpHsv` | animatedcheckbox/src/main/java/it/emperor/animatedcheckbox/extension/NumberExt.kt:15-17 | the definition of the triple `animateColor` writes: component by component, `colorFrom[i] + (colorTo[i] - colorFrom[i])·fraction`; its endpoints and bounds are proved in the `LerpHsv*` lemmas |
| `NumberExt.LerpHsvAtStart` | animatedcheckbox/src/main/java/it/emperor/animatedcheckbox/extension/NumberExt.kt:14-17 | at fraction 0 the buffer equals `colorFrom` exactly |
| `NumberExt.LerpHsvAtEnd` | animatedcheckbox/src/main/java/it/emperor/animatedcheckbox/extension/NumberExt.kt:14-17 | at fraction 1 the buffer equals `colorTo` exactly |
| `NumberExt.LerpHsvBetween` | animatedcheckbox/src/main/java/it/emperor/animatedcheckbox/extension/NumberExt.kt:14-17 | for a fraction in [0, 1] every component lies between `from[i]` and `to[i]` |
| `NumberExt.AnimateColor` | animatedcheckbox/src/main/java/it/emperor/animatedcheckbox/extension/NumberExt.kt:14-19 | writes exactly indices 0 to 2 of the receiver with the interpolation of the old `colorFrom` and `colorTo`, even when the receiver is one of them; leaves `colorFrom` and `colorTo` unchanged when they are distinct from the receiver; returns the conversion of the written components |
| `Platform.Trunc` | animatedcheckbox/src/main/java/it/emperor/animatedcheckbox/AnimatedCheckBox.kt:297 | `toLong`/`toInt` truncate toward zero: for a non-negative value, the largest integer not above it; for a negative value, the smallest integer not below it |
| `Platform.TruncMonotone` | animatedcheckbox/src/main/java/it/emperor/animatedcheckbox/AnimatedCheckBox.kt:180 | truncation preserves the order of non-negative values |
| `CheckBoxDraw.UseAnimatedColor` | animatedcheckbox/src/main/java/it/emperor/animatedcheckbox/AnimatedCheckBox.kt:324 | colour animation is on exactly when the hook colour differs from the unchecked border colour; what it switches is stated by `FrameOf`, `Update`, `Finish` and `UpdateState` |
| `CheckBoxDraw.Padding` | animatedcheckbox/src/main/java/it/emperor/animatedcheckbox/AnimatedCheckBox.kt:316 | the padding of both sides together, twice the configured padding |
| `CheckBoxDraw.InnerWidth` | animatedcheckbox/src/main/java/it/emperor/animatedcheckbox/AnimatedCheckBox.kt:317 | the width inside the padding: the view width less the padding of both sides |
| `CheckBoxDraw.InnerHeight` | animatedcheckbox/src/main/java/it/emperor/animatedcheckbox/AnimatedCheckBox.kt:318 | the height inside the padding: the view height less the padding of both sides |
| `CheckBoxDraw.CenterX` | animatedcheckbox/src/main/java/it/emperor/animatedcheckbox/AnimatedCheckBox.kt:316-319 | the padding cancels out: the centre is half the view's width |
| `CheckBoxDraw.CenterY` | animatedcheckbox/src/main/java/it/emperor/animatedcheckbox/AnimatedCheckBox.kt:316-320 | the padding cancels out: the centre is half the view's height |
| `CheckBoxDraw.Radius` | animatedcheckbox/src/main/java/it/emperor/animatedcheckbox/AnimatedCheckBox.kt:322 | the radius is half the smaller of `width - 2·padding` and `height - 2·padding`, so the circle fits inside the padding |
| `CheckBoxDraw.RadiusBorderChecked` | animatedcheckbox/src/main/java/it/emperor/animatedcheckbox/AnimatedCheckBox.kt:323 | the checked border's radius always equals the circle's radius |
| `CheckBoxDraw.CircleAlpha` | animatedcheckbox/src/main/java/it/emperor/animatedcheckbox/AnimatedCheckBox.kt:177-182 | the circle's alpha is in [0, 255] for progress in [0, 1]; it is 0 at progress 0 and 255 at progress 1 |
| `CheckBoxDraw.CircleAlphaMonotone` | animatedcheckbox/src/main/java/it/emperor/animatedcheckbox/AnimatedCheckBox.kt:180 | the circle's alpha never decreases as progress grows |
| `CheckBoxDraw.UncheckedArc` | animatedcheckbox/src/main/java/it/emperor/animatedcheckbox/AnimatedCheckBox.kt:209-214 | the unchecked arc is drawn iff progress < 0.7; its progress is in [0, 1]; it is the whole ring at progress <= 0 and falls linearly to 0 at 0.7; its sweep is `-360·arcProgress` and it always ends at 200 degrees |
| `CheckBoxDraw.UncheckedArcShrinks` | animatedcheckbox/src/main/java/it/emperor/animatedcheckbox/AnimatedCheckBox.kt:211 | the unchecked arc never grows as progress grows |
| `CheckBoxDraw.CheckedArc` | animatedcheckbox/src/main/java/it/emperor/animatedcheckbox/AnimatedCheckBox.kt:216-224 | the checked arc is drawn iff `borderCheckedStrokeWidth > 0` and progress > 0.7; its progress is in [0, 1], grows linearly from 0 at 0.7 and is 1 at progress 1; it starts at 200 degrees and sweeps `-360·arcProgressBorder` |
| `CheckBoxDraw.CheckedArcGrows` | animatedcheckbox/src/main/java/it/emperor/animatedcheckbox/AnimatedCheckBox.kt:221 | the checked arc never shrinks as progress grows |
| `CheckBoxDraw.LeftHookOf` | animatedcheckbox/src/main/java/it/emperor/animatedcheckbox/AnimatedCheckBox.kt:250-271 | below 0.7 the left side grows with fraction `progress/0.7`, in [0, 1); from 0.7 on it retracts with a fraction in [0, 0.5]; the line length is the radius times the fraction, or times one minus the fraction when retracting |
| `CheckBoxDraw.RightHookOf` | animatedcheckbox/src/main/java/it/emperor/animatedcheckbox/AnimatedCheckBox.kt:276-288 | the right side is drawn iff progress >= 0.7, with a fraction in [0, 0.75] for progress in [0.7, 1], reaching 0.75 at 1 |
| `CheckBoxDraw.HookFractionsMonotone` | animatedcheckbox/src/main/java/it/emperor/animatedcheckbox/AnimatedCheckBox.kt:250-288 | within each phase, both hook fractions never decrease as progress grows |
| `CheckBoxDraw.FrameOf` | animatedcheckbox/src/main/java/it/emperor/animatedcheckbox/AnimatedCheckBox.kt:164-288 | stroke drawing resets alpha to 255 with the hook's stroke width; the two border arcs are never drawn in the same frame; the left side retracts exactly when the right side is drawn; the centre is the middle of the view; both radii agree; the hook is stroked in the animated colour in animated-colour mode and always in the hook colour otherwise |
| `CheckBoxDraw.FrameAtRest` | animatedcheckbox/src/main/java/it/emperor/animatedcheckbox/AnimatedCheckBox.kt:164-288 | at rest, unchecked shows a transparent circle, the whole unchecked ring and a zero-length hook; checked shows an opaque circle, the whole checked ring if configured, the left side retracted by half and the right side at three quarters |
| `CheckBoxController.Animator.ValueAt` | animatedcheckbox/src/main/java/it/emperor/animatedcheckbox/AnimatedCheckBox.kt:296 | the animated value equals the start value at fraction 0 and the end value at fraction 1 |
| `CheckBoxController.ValueApproachesEnd` | animatedcheckbox/src/main/java/it/emperor/animatedcheckbox/AnimatedCheckBox.kt:294-296 | as the fraction grows through [0, 1], the animated value stays between the start and end values and its distance to the end value never grows |
| `CheckBoxController.FirstFraction` | animatedcheckbox/src/main/java/it/emperor/animatedcheckbox/AnimatedCheckBox.kt:298 | the fraction of the frame `start()` delivers at once lies in [0, 1] and is the final fraction 1 exactly when the duration is not positive |
| `CheckBoxController.EffectiveDuration` | animatedcheckbox/src/main/java/it/emperor/animatedcheckbox/AnimatedCheckBox.kt:295-297 | the effective duration is non-negative for a non-negative configured duration |
| `CheckBoxController.EffectiveDurationBounded` | animatedcheckbox/src/main/java/it/emperor/animatedcheckbox/AnimatedCheckBox.kt:293-298 | from any progress in [0, 1], `trunc(duration·abs(end - progress))` is at most the configured duration |
| `CheckBoxController.EffectiveDurationFullSweep` | animatedcheckbox/src/main/java/it/emperor/animatedcheckbox/AnimatedCheckBox.kt:294-297 | from the opposite end it equals the configured duration |
| `CheckBoxController.EffectiveDurationAtTarget` | animatedcheckbox/src/main/java/it/emperor/animatedcheckbox/AnimatedCheckBox.kt:295-297 | already at the target it is 0 |
| `CheckBoxController.EffectiveDurationHalfway` | animatedcheckbox/src/main/java/it/emperor/animatedcheckbox/AnimatedCheckBox.kt:293-298 | reversing from progress 0.5 with a 250 ms duration takes 125 ms |
| `CheckBoxController.AnimatedHsv` | animatedcheckbox/src/main/java/it/emperor/animatedcheckbox/AnimatedCheckBox.kt:309-312 | the direction rule of the colour animation: unchecking blends from the hook colour to the unchecked border colour, checking blends back; `Update` is stated against it and `AnimatedHsvEnds` proves its endpoints |
| `CheckBoxController.AnimatedHsvEnds` | animatedcheckbox/src/main/java/it/emperor/animatedcheckbox/AnimatedCheckBox.kt:309-312 | unchecking starts at the hook colour and ends at the unchecked border colour; checking goes the other way |
| `CheckBoxController.ColorToHsv` | animatedcheckbox/src/main/java/it/emperor/animatedcheckbox/AnimatedCheckBox.kt:70-73 | the HSV buffer holds exactly the three components of the converted colour |
| `CheckBoxController.AnimatedCheckBox.constructor` | animatedcheckbox/src/main/java/it/emperor/animatedcheckbox/AnimatedCheckBox.kt:53-100 | initially progress is 1 when checked and 0 when not; `colorAnimation` is the hook colour when checked and the unchecked border colour when not; in animated-colour mode the buffers hold the HSV of the hook and unchecked border colours; no animation runs, the listener is attached, no callback has been called |
| `CheckBoxController.AnimatedCheckBox.SetOnChangeListener` | animatedcheckbox/src/main/java/it/emperor/animatedcheckbox/AnimatedCheckBox.kt:113-115 | replaces the stored callback, changes nothing else and keeps `Valid()` |
| `CheckBoxController.AnimatedCheckBox.IsAnimating` | animatedcheckbox/src/main/java/it/emperor/animatedcheckbox/AnimatedCheckBox.kt:150 | when no animation runs, progress is at rest for `checked`; when one runs, progress lies between its start and the resting progress |
| `CheckBoxController.AnimatedCheckBox.UpdateState` | animatedcheckbox/src/main/java/it/emperor/animatedcheckbox/AnimatedCheckBox.kt:124-133 | sets `checked`; cancels any running animation and detaches the listener if one ran; without animation, snaps progress to rest, stops the animator and leaves its values unchanged, leaves the colour alone and requests no redraw; with animation, starts from the current progress toward rest with the effective duration and takes the animator's first frame at once (progress unchanged for a positive duration, at rest for a zero one; the colour interpolated at that fraction in animated-colour mode; one redraw); never calls the callback; keeps `Valid()` |
| `CheckBoxController.AnimatedCheckBox.Click` | animatedcheckbox/src/main/java/it/emperor/animatedcheckbox/AnimatedCheckBox.kt:103-105 | flips `checked`, starts an animation toward the new resting progress with the effective duration, and takes its first frame at once: progress stays put for a positive duration and is at rest for a zero one, with one redraw; in animated-colour mode the colour is interpolated at that first fraction in the new state's direction, otherwise the colour and the HSV buffer are untouched |
| `CheckBoxController.AnimatedCheckBox.Cancel` | animatedcheckbox/src/main/java/it/emperor/animatedcheckbox/AnimatedCheckBox.kt:92-95 | stops the animator; if it was running, the cancel listener removes the listeners, so no completion is reported; a detached listener stays detached |
| `CheckBoxController.AnimatedCheckBox.StartAnimation` | animatedcheckbox/src/main/java/it/emperor/animatedcheckbox/AnimatedCheckBox.kt:293-299 | animates from the current progress to the resting progress of `checked`, over the configured duration scaled by the distance and truncated |
| `CheckBoxController.AnimatedCheckBox.Update` | animatedcheckbox/src/main/java/it/emperor/animatedcheckbox/AnimatedCheckBox.kt:306-314 | sets progress to the animated value; in animated-colour mode re-interpolates the colour by the fraction (from hook to unchecked border when unchecking, the reverse when checking); otherwise leaves the colour untouched; requests one redraw |
| `CheckBoxController.AnimatedCheckBox.Finish` | animatedcheckbox/src/main/java/it/emperor/animatedcheckbox/AnimatedCheckBox.kt:97-99 | the last frame puts progress at rest; in animated-colour mode the HSV buffer holds the new state's colour and `colorAnimation` is its conversion, otherwise neither changes; one redraw; the end listener, if still attached, calls the stored callback once with `checked` |
| `CheckBoxController.AnimatedCheckBox.UpdateDuration` | animatedcheckbox/src/main/java/it/emperor/animatedcheckbox/AnimatedCheckBox.kt:140-143 | changes only the stored duration, used by later animations, requests a redraw and keeps `Valid()` |
| `CheckBoxController.AnimatedCheckBox.CurrentFrame` | animatedcheckbox/src/main/java/it/emperor/animatedcheckbox/AnimatedCheckBox.kt:164-170 | at rest the frame shows the state: an opaque circle and the right side of the hook exactly when checked, the unchecked ring exactly when not |
| `CheckBoxController.ClickRunsToCompletion` | animatedcheckbox/src/main/java/it/emperor/animatedcheckbox/AnimatedCheckBox.kt:97-105 | a click that runs to completion ends checked at progress 1 and calls the registered callback once, with `true` |
| `CheckBoxController.InterruptedClickSilencesCallback` | animatedcheckbox/src/main/java/it/emperor/animatedcheckbox/AnimatedCheckBox.kt:92-99 | after a click interrupts a running animation, neither that animation nor a later completed one calls the callback |
| `CheckBoxController.SnapRoundTrip` | animatedcheckbox/src/main/java/it/emperor/animatedcheckbox/AnimatedCheckBox.kt:124-133 | checking then unchecking without animation returns to unchecked at progress 0 with nothing running, no callback and no redraw; the animator, the animated colour and its HSV buffer equal their values right after construction |

## Left out

- Floating point: `Float` and `Double` are `real`, so `0.7f`, `0.3f` and the products are exact. `Trunc` does not saturate at the bounds of `Int` and `Long`.
- Android view plumbing is not modelled: the `Canvas` calls, `Paint` and `Path` objects, `CornerPathEffect`, `invalidate()` (only counted), and the click-listener wiring.
- Attribute parsing with `obtainStyledAttributes` is not modelled, and neither are the default constants or the `2f.toPx()` default padding. The constructor takes the resolved attribute values. Without attributes the source leaves `colorAnimation` at its field initializer. That is the unchecked border colour, which the constructor's rule gives as well.
- The trigonometric geometry is not modelled: `onLayout`'s hook joints, the hook end points, and `hookOffsetY()`. `hookOffsetY()` only feeds those end points. The model keeps the branch choices, fractions and line lengths.
- `ValueAnimator` internals are not modelled: the frame clock and the `AccelerateDecelerateInterpolator` curve. `Update` takes the interpolated fraction, which this interpolator keeps in [0, 1]. Of `start()` the model keeps what the widget sees: with no start delay it delivers the frame at play time 0 at once (fraction 0, or 1 for a zero duration), which `UpdateState` states; the animation then ends only through a later `Finish`.
- AnimatedCheckBox.UpdateDuration: negative durations are accepted, as in the source. `ValueAnimator.setDuration` would then throw at the next `startAnimation` whose scaled duration `(duration * fraction).toLong()` is negative (not when the distance to travel is 0), and that throw is not modelled. The duration lemmas assume a non-negative duration.
- `Color.colorToHSV` and `Color.HSVToColor` cannot be seen. They are the parameters `colorToHsv` and `hsvToColor`, and the packed colour is an uninterpreted function of the HSV buffer.
- NumberExt.ToRange: requires distinct old bounds. With equal bounds a `Float` division gives an infinity or NaN, which `real` cannot represent. Every call site passes distinct constants.
- NumberExt.AnimateColor: requires arrays of length at least 3. A shorter array makes Kotlin throw `ArrayIndexOutOfBoundsException`. The widget's buffers always have length 3.
- The change callback is opaque host code. It is identified by a `ListenerId`, and its invocations are recorded rather than run.
- `Binding.kt` (two data-binding adapters) and `MainActivity.kt` (the demo activity) are not part of this model.
