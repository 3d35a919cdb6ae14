/**
  The thresholds of the format gate and the arithmetic behind its aspect-ratio
  check: the ratio band [2.5, 6.5] compared on the exact quotient width/height
  is the same as a comparison of integers by cross-multiplication.
 */
module Geometry {

  /** Narrowest image the gate lets through, in pixels. */
  const MinWidth: nat := 800
  /** Shortest image the gate lets through, in pixels. */
  const MinHeight: nat := 250

  /** The ends of the aspect band. Both are exact binary fractions. */
  const AspectMin: real := 2.5
  const AspectMax: real := 6.5

  /** The same ends counted in halves: 2.5 == 5/2 and 6.5 == 13/2. */
  const AspectMinHalves: nat := 5
  const AspectMaxHalves: nat := 13

  /** The size gate: both dimensions at least their minimum (inclusive). */
  predicate LargeEnough(w: nat, h: nat) {
    MinWidth <= w && MinHeight <= h
  }

  /** The aspect gate in integers: 5*h <= 2*w <= 13*h. */
  predicate WithinAspect(w: nat, h: nat) {
    AspectMinHalves * h <= 2 * w <= AspectMaxHalves * h
  }

  /** The exact quotient width/height. */
  function Ratio(w: nat, h: nat): (q: real)
    requires h > 0
    ensures q * (h as real) == w as real
    ensures 0.0 <= q
  {
    (w as real) / (h as real)
  }

  /** The aspect gate on the exact ratio: 2.5 <= w/h <= 6.5. */
  ghost predicate RatioInBand(w: nat, h: nat) {
    h > 0 && AspectMin <= Ratio(w, h) <= AspectMax
  }

  /** Multiplying both sides by a positive number keeps a strict order, both ways. */
  lemma ScaleLess(a: real, b: real, c: real)
    requires c > 0.0
    ensures a < b <==> a * c < b * c
  {
  }

  /** The exact ratio is below the band's half-count bound n/2 iff 2*w < n*h. */
  lemma RatioBelowIff(w: nat, h: nat, n: nat)
    requires h > 0
    ensures Ratio(w, h) < (n as real) / 2.0 <==> 2 * w < n * h
  {
  }

  /** The exact ratio is above n/2 iff 2*w > n*h. */
  lemma RatioAboveIff(w: nat, h: nat, n: nat)
    requires h > 0
    ensures Ratio(w, h) > (n as real) / 2.0 <==> 2 * w > n * h
  {
  }

  /** The integer form of the aspect gate decides exactly the band on the exact ratio. */
  lemma RatioInBandIffWithinAspect(w: nat, h: nat)
    requires h > 0
    ensures RatioInBand(w, h) <==> WithinAspect(w, h)
  {
    RatioBelowIff(w, h, AspectMinHalves);
    RatioAboveIff(w, h, AspectMaxHalves);
  }
}
