/**
 * What the model takes from Kotlin and Android: the packed colour type, the
 * three-component HSV triple, and the numeric conversions the widget uses.
 * Kotlin `Float`/`Double` are modelled as `real`; IEEE rounding is not modelled.
 */
module Platform {

  /** A value that may be absent. */
  datatype Option<+T> = None | Some(value: T)

  /** An Android packed ARGB colour, a Kotlin `Int`. */
  type Color = int

  /** The three components `Color.colorToHSV` writes into a `FloatArray(3)`. */
  datatype Hsv = Hsv(h: real, s: real, v: real)
  {
    /** The components in the order they occupy in the `FloatArray`. */
    function Components(): (c: seq<real>)
      ensures |c| == 3 && c[0] == h && c[1] == s && c[2] == v
    {
      [h, s, v]
    }
  }

  /**
   * Kotlin's `Float.toInt()` / `Float.toLong()`: truncation toward zero.
   * (Saturation at the bounds of `Int`/`Long` is not modelled.)
   */
  function Trunc(x: real): (r: int)
    ensures 0.0 <= x ==> 0 <= r && r as real <= x < r as real + 1.0
    ensures x < 0.0 ==> r <= 0 && r as real - 1.0 < x <= r as real
  {
    if x >= 0.0 then x.Floor else -((-x).Floor)
  }

  /** Truncation keeps the order of non-negative values. */
  lemma TruncMonotone(x: real, y: real)
    requires 0.0 <= x <= y
    ensures Trunc(x) <= Trunc(y)
  {
  }

  /** An integral value is its own truncation. */
  lemma TruncOfInt(n: int)
    ensures Trunc(n as real) == n
  {
  }

  /** `Math.abs` on a `Float`. */
  function Abs(x: real): (r: real)
    ensures 0.0 <= r && (r == x || r == -x)
  {
    if x < 0.0 then -x else x
  }

  /** Scaling by a non-negative factor scales the absolute value by it. */
  lemma AbsScale(a: real, t: real)
    requires 0.0 <= t
    ensures Abs(a * t) == Abs(a) * t
  {
    if a < 0.0 {
      assert a * t == -((-a) * t);
    }
  }

  /** The smaller of two reals. */
  function Min(a: real, b: real): (r: real)
    ensures r <= a && r <= b && (r == a || r == b)
  {
    if a <= b then a else b
  }
}
