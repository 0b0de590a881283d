/** Arithmetic of the scrolling viewport: rounding world coordinates to canvas
    pixels and clamping the display window into the canvas. World coordinates
    are floats in the program; here they are exact reals. */
module Viewport {

  /** Python's round() on one number: to the nearest integer, ties to the even one. */
  function RoundHalfEven(r: real): (n: int)
    ensures -1.0 / 2.0 <= n as real - r <= 1.0 / 2.0
    ensures (n as real - r == 1.0 / 2.0 || r - n as real == 1.0 / 2.0) ==> n % 2 == 0
    ensures r == r.Floor as real ==> n == r.Floor
  {
    var f := r.Floor;
    var frac := r - f as real;
    if frac < 1.0 / 2.0 then f
    else if frac > 1.0 / 2.0 then f + 1
    else if f % 2 == 0 then f
    else f + 1
  }

  /** Start of a window of length view inside a canvas of length size, asked for at
      desired: first raised to 0 if negative, then lowered so the window ends at the
      canvas edge if it would run past it. */
  function ClampedStart(desired: int, size: int, view: int): (s: int)
    ensures size >= view ==> 0 <= s <= size - view
    ensures size >= view && 0 <= desired <= size - view ==> s == desired
    ensures size >= view && desired < 0 ==> s == 0
    ensures desired > size - view ==> s == size - view
    ensures size < view ==> s == size - view
  {
    var s := if desired < 0 then 0 else desired;
    if s + view > size then size - view else s
  }
}
