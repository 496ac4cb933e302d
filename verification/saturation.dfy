/** Saturation (clipping) of a real signal into a closed interval, as used by the
    simulator both for the actuator range [0, 1] and for the integral rate limit. */
module Saturation {

  function Min(x: real, y: real): (r: real)
    ensures r <= x && r <= y
    ensures r == x || r == y
  {
    if x <= y then x else y
  }

  function Max(x: real, y: real): (r: real)
    ensures r >= x && r >= y
    ensures r == x || r == y
  {
    if x >= y then x else y
  }

  function Abs(x: real): real
  {
    if x < 0.0 then -x else x
  }

  /** `sat(x, a, b)` = `Math.min(b, Math.max(a, x))`. On a proper interval the
      result lies in [a, b], and a value already inside is returned unchanged. */
  function Sat(x: real, a: real, b: real): (r: real)
    ensures a <= b ==> a <= r <= b
    ensures a <= x <= b ==> r == x
    ensures a <= b && x < a ==> r == a
    ensures x > b ==> r == b
  {
    Min(b, Max(a, x))
  }

  /** The saturated value is the point of [a, b] closest to x. */
  lemma SatIsNearest(x: real, a: real, b: real, y: real)
    requires a <= y <= b
    ensures Abs(Sat(x, a, b) - x) <= Abs(y - x)
  {
  }

  /** Saturation never reverses the order of two signals. */
  lemma SatMonotone(x: real, y: real, a: real, b: real)
    requires a <= b
    requires x <= y
    ensures Sat(x, a, b) <= Sat(y, a, b)
  {
  }

  /** Saturating twice is saturating once. */
  lemma SatIdempotent(x: real, a: real, b: real)
    requires a <= b
    ensures Sat(Sat(x, a, b), a, b) == Sat(x, a, b)
  {
  }

  /** On a non-degenerate interval the saturated value sits on a bound exactly when
      the input reaches or passes it. */
  lemma SatAtBound(x: real, a: real, b: real)
    requires a < b
    ensures Sat(x, a, b) == b <==> x >= b
    ensures Sat(x, a, b) == a <==> x <= a
  {
  }
}
