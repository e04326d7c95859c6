/**
 * The numeric extension functions of the widget: the affine remap `toRange`,
 * `clamp`, and `animateColor`, which linearly interpolates an HSV triple into
 * a receiver `FloatArray` before converting it to a packed colour.
 */
module NumberExt {
  import opened Platform

  /** `x` lies on the closed segment between `a` and `b`, in either orientation. */
  predicate Between(a: real, b: real, x: real)
  {
    (a <= x <= b) || (b <= x <= a)
  }

  /**
   * `Float.toRange`: the affine map sending `oldMin` to `newMin` and `oldMax`
   * to `newMax`. The source divides by `oldMax - oldMin`; with equal bounds a
   * `Float` yields an infinity or NaN, which `real` cannot represent.
   */
  function ToRange(x: real, oldMin: real, oldMax: real, newMin: real, newMax: real): (r: real)
    requires oldMin != oldMax
  {
    ((x - oldMin) * (newMax - newMin)) / (oldMax - oldMin) + newMin
  }

  /** The remap sends `oldMin` to `newMin` and `oldMax` to `newMax`. */
  lemma ToRangeEndpoints(oldMin: real, oldMax: real, newMin: real, newMax: real)
    requires oldMin != oldMax
    ensures ToRange(oldMin, oldMin, oldMax, newMin, newMax) == newMin
    ensures ToRange(oldMax, oldMin, oldMax, newMin, newMax) == newMax
  {
  }

  /** Every value between the old bounds lands between the new bounds. */
  lemma ToRangeBetween(x: real, oldMin: real, oldMax: real, newMin: real, newMax: real)
    requires oldMin != oldMax
    requires Between(oldMin, oldMax, x)
    ensures Between(newMin, newMax, ToRange(x, oldMin, oldMax, newMin, newMax))
  {
    var t := (x - oldMin) / (oldMax - oldMin);
    if oldMin < oldMax {
      QuotientWithinUnit(x - oldMin, oldMax - oldMin);
    } else {
      QuotientWithinUnit(oldMin - x, oldMin - oldMax);
      assert (oldMin - x) / (oldMin - oldMax) == t;
    }
    ScaleWithinUnit(t, newMax - newMin);
    ToRangeAsScale(x, oldMin, oldMax, newMin, newMax);
  }

  /** The remap is `newMin` plus the relative position of `x` scaled to the new span. */
  lemma ToRangeAsScale(x: real, oldMin: real, oldMax: real, newMin: real, newMax: real)
    requires oldMin != oldMax
    ensures ToRange(x, oldMin, oldMax, newMin, newMax)
            == (x - oldMin) / (oldMax - oldMin) * (newMax - newMin) + newMin
  {
    MulDiv(x - oldMin, newMax - newMin, oldMax - oldMin);
  }

  /** Dividing a product is dividing one factor. */
  lemma MulDiv(a: real, b: real, c: real)
    requires c != 0.0
    ensures (a * b) / c == (a / c) * b
  {
    var q := a / c;
    assert q * c == a;
    assert (q * b) * c == (q * c) * b;
  }

  /** A quotient of a part by its positive whole lies in [0, 1]. */
  lemma QuotientWithinUnit(a: real, d: real)
    requires 0.0 < d && 0.0 <= a <= d
    ensures 0.0 <= a / d <= 1.0
  {
    assert a / d + (d - a) / d == d / d == 1.0;
    assert 0.0 <= (d - a) / d;
  }

  /** Multiplying by a factor in [0, 1] keeps a value between 0 and itself. */
  lemma ScaleWithinUnit(t: real, d: real)
    requires 0.0 <= t <= 1.0
    ensures Between(0.0, d, t * d)
  {
    if d >= 0.0 {
      assert t * d <= 1.0 * d;
    } else {
      assert 1.0 * d <= t * d;
    }
  }

  /** Multiplying by a non-negative factor keeps order. */
  lemma ScaleMonotone(g: real, a: real, b: real)
    requires 0.0 <= g && a <= b
    ensures g * a <= g * b
  {
    assert g * b - g * a == g * (b - a);
  }

  /** Remapping back with the bounds swapped recovers the original value. */
  lemma ToRangeRoundTrip(x: real, oldMin: real, oldMax: real, newMin: real, newMax: real)
    requires oldMin != oldMax && newMin != newMax
    ensures ToRange(ToRange(x, oldMin, oldMax, newMin, newMax), newMin, newMax, oldMin, oldMax) == x
  {
  }

  /** With increasing old bounds, the remap preserves order when the new bounds increase. */
  lemma ToRangeMonotone(x: real, y: real, oldMin: real, oldMax: real, newMin: real, newMax: real)
    requires oldMin < oldMax && newMin <= newMax && x <= y
    ensures ToRange(x, oldMin, oldMax, newMin, newMax) <= ToRange(y, oldMin, oldMax, newMin, newMax)
  {
  }

  /** With increasing old bounds, the remap reverses order when the new bounds decrease. */
  lemma ToRangeAntitone(x: real, y: real, oldMin: real, oldMax: real, newMin: real, newMax: real)
    requires oldMin < oldMax && newMax <= newMin && x <= y
    ensures ToRange(y, oldMin, oldMax, newMin, newMax) <= ToRange(x, oldMin, oldMax, newMin, newMax)
  {
  }

  /**
   * `Float.clamp`: below `min` gives `min`, otherwise above `max` gives `max`,
   * otherwise the value itself.
   */
  function Clamp(x: real, min: real, max: real): (r: real)
    ensures min <= max ==> min <= r <= max
    ensures min <= x <= max ==> r == x
    ensures r == x || r == min || r == max
  {
    if x < min then min
    else if x > max then max
    else x
  }

  /** Clamping twice is clamping once. */
  lemma ClampIdempotent(x: real, min: real, max: real)
    requires min <= max
    ensures Clamp(Clamp(x, min, max), min, max) == Clamp(x, min, max)
  {
  }

  /** Clamping preserves order. */
  lemma ClampMonotone(x: real, y: real, min: real, max: real)
    requires min <= max && x <= y
    ensures Clamp(x, min, max) <= Clamp(y, min, max)
  {
  }

  /** One component of `animateColor`: `from + (to - from) * fraction`. */
  function Lerp(from: real, to: real, fraction: real): (r: real)
    ensures fraction == 0.0 ==> r == from
    ensures fraction == 1.0 ==> r == to
  {
    from + (to - from) * fraction
  }

  /** For a fraction in [0, 1] the blend lies between its two endpoints. */
  lemma LerpBetween(from: real, to: real, fraction: real)
    requires 0.0 <= fraction <= 1.0
    ensures Between(from, to, Lerp(from, to, fraction))
  {
    ScaleWithinUnit(fraction, to - from);
  }

  /** The three interpolated components `animateColor` writes. */
  function LerpHsv(from: seq<real>, to: seq<real>, fraction: real): (r: seq<real>)
    requires |from| >= 3 && |to| >= 3
  {
    [Lerp(from[0], to[0], fraction), Lerp(from[1], to[1], fraction), Lerp(from[2], to[2], fraction)]
  }

  /** At fraction 0 the interpolated triple is exactly `from`. */
  lemma LerpHsvAtStart(from: seq<real>, to: seq<real>)
    requires |from| == 3 && |to| == 3
    ensures LerpHsv(from, to, 0.0) == from
  {
  }

  /** At fraction 1 the interpolated triple is exactly `to`. */
  lemma LerpHsvAtEnd(from: seq<real>, to: seq<real>)
    requires |from| == 3 && |to| == 3
    ensures LerpHsv(from, to, 1.0) == to
  {
  }

  /** For a fraction in [0, 1] every component lies between its two endpoints. */
  lemma LerpHsvBetween(from: seq<real>, to: seq<real>, fraction: real, i: int)
    requires |from| >= 3 && |to| >= 3
    requires 0.0 <= fraction <= 1.0 && 0 <= i < 3
    ensures Between(from[i], to[i], LerpHsv(from, to, fraction)[i])
  {
    LerpBetween(from[i], to[i], fraction);
  }

  /**
   * `FloatArray.animateColor`: writes exactly indices 0, 1 and 2 of the
   * receiver `hsv` with the interpolation between `colorFrom` and `colorTo`,
   * then converts the receiver with `hsvToColor` (Android's `Color.HSVToColor`,
   * which reads the first three components). Each write reads only its own
   * index of the inputs, so the result holds even when the receiver is one of
   * them.
   */
  method AnimateColor(hsv: array<real>, colorFrom: array<real>, colorTo: array<real>,
                      animatedFraction: real, hsvToColor: seq<real> -> Color)
    returns (color: Color)
    requires hsv.Length >= 3 && colorFrom.Length >= 3 && colorTo.Length >= 3
    modifies hsv
    ensures hsv[..3] == LerpHsv(old(colorFrom[..]), old(colorTo[..]), animatedFraction)
    ensures forall i :: 3 <= i < hsv.Length ==> hsv[i] == old(hsv[i])
    ensures colorFrom != hsv ==> colorFrom[..] == old(colorFrom[..])
    ensures colorTo != hsv ==> colorTo[..] == old(colorTo[..])
    ensures color == hsvToColor(hsv[..3])
  {
    ghost var from, to := colorFrom[..], colorTo[..];
    hsv[0] := colorFrom[0] + (colorTo[0] - colorFrom[0]) * animatedFraction;
    assert hsv[0] == Lerp(from[0], to[0], animatedFraction);
    hsv[1] := colorFrom[1] + (colorTo[1] - colorFrom[1]) * animatedFraction;
    assert hsv[1] == Lerp(from[1], to[1], animatedFraction);
    hsv[2] := colorFrom[2] + (colorTo[2] - colorFrom[2]) * animatedFraction;
    assert hsv[2] == Lerp(from[2], to[2], animatedFraction);
    color := hsvToColor(hsv[..3]);
  }
}
