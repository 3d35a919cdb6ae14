/**
  Python's true division of two integers, `w / h`, yields the IEEE 754 binary64
  value nearest to the exact quotient. The model does not build doubles; it
  takes the rounding as a function `rnd` on reals and assumes of it only what
  round-to-nearest guarantees: a relative error of at most 2^-53 over the
  normal range, and no error at all on the two band ends, which are doubles.
  From that alone it follows that, for image dimensions OpenCV can hold, the
  rounded quotient sits on the same side of each band end as the exact one.
 */
module FloatDivision {
  import opened Geometry

  /** 2^-53, the unit roundoff of binary64 round-to-nearest. */
  const UnitRoundoff: real := 1.0 / 9007199254740992.0
  /** 2^-64 and 2^64: a range inside the normal range of binary64. */
  const NormalLo: real := 1.0 / 18446744073709551616.0
  const NormalHi: real := 18446744073709551616.0

  /** 2^31: OpenCV keeps an image's rows and columns in a C `int`. */
  const DimLimit: nat := 2147483648

  /** The relative error bound of round-to-nearest on [2^-64, 2^64]. */
  ghost predicate RelativeErrorBounded(rnd: real -> real) {
    forall x :: NormalLo <= x <= NormalHi ==>
      x - x * UnitRoundoff <= rnd(x) <= x + x * UnitRoundoff
  }

  /** What the model assumes of the division that Python performs: the
      error bound, and exactness on the two band ends. */
  ghost predicate RoundsToNearestDouble(rnd: real -> real) {
    && RelativeErrorBounded(rnd)
    && rnd(AspectMin) == AspectMin
    && rnd(AspectMax) == AspectMax
  }

  /** The exact quotient of two dimensions of a decodable image lies in the
      range where the error bound applies. */
  lemma RatioInNormalRange(w: nat, h: nat)
    requires 1 <= w < DimLimit && 1 <= h < DimLimit
    ensures NormalLo <= Ratio(w, h) <= NormalHi
  {
    var q, W, H := Ratio(w, h), w as real, h as real;
    assert q * H == W;
    assert NormalLo * H < 1.0 <= W;
    ScaleLess(q, NormalLo, H);
    assert W < NormalHi <= NormalHi * H;
    ScaleLess(NormalHi, q, H);
  }

  /** Multiplication distributes over addition; stated as a step of its own
      so that the solver sees the products in the form the margins use. */
  lemma Distrib(x: real, y: real, H: real)
    ensures (x + y) * H == x * H + y * H
  {
  }

  /** With a gap of at least 1 between 2*W and n*H, and an error e with
      W*e < 1/2, q = W/H scaled up by the error still falls below n/2. */
  lemma MarginBelow(q: real, W: real, H: real, e: real, n: real)
    requires q * H == W && 0.0 <= e && W * e < 0.5
    requires 2.0 * W + 1.0 <= n * H
    ensures (q + q * e) * H < (n / 2.0) * H
  {
    var qe := q * e;
    Distrib(q, qe, H);
    assert qe * H == W * e;
    assert 2.0 * (W + W * e) < n * H;
    assert 2.0 * ((q + qe) * H) < n * H;
  }

  /** The mirror of MarginBelow: q scaled down by the error stays above n/2. */
  lemma MarginAbove(q: real, W: real, H: real, e: real, n: real)
    requires q * H == W && 0.0 <= e && W * e < 0.5
    requires 2.0 * W >= n * H + 1.0
    ensures (n / 2.0) * H < (q - q * e) * H
  {
    var qe := q * e;
    var lo := q - qe;
    Distrib(lo, qe, H);
    assert qe * H == W * e;
    assert lo * H == W - W * e;
    assert n * H < 2.0 * (W - W * e);
  }

  /** A quotient strictly below the band end n/2 stays below it once rounded. */
  lemma RoundedStaysBelow(rnd: real -> real, w: nat, h: nat, n: nat)
    requires RelativeErrorBounded(rnd)
    requires 1 <= w < DimLimit && 1 <= h < DimLimit
    requires 2 * w < n * h
    ensures rnd(Ratio(w, h)) < (n as real) / 2.0
  {
    var q, t := Ratio(w, h), (n as real) / 2.0;
    var W, H, e := w as real, h as real, UnitRoundoff;
    RatioInNormalRange(w, h);
    var hi := q + q * e;
    assert rnd(q) <= hi;
    assert q * H == W;
    assert W * e < 0.5;
    assert 2.0 * W + 1.0 <= (n as real) * H;
    MarginBelow(q, W, H, e, n as real);
    ScaleLess(hi, t, H);
  }

  /** A quotient strictly above the band end n/2 stays above it once rounded. */
  lemma RoundedStaysAbove(rnd: real -> real, w: nat, h: nat, n: nat)
    requires RelativeErrorBounded(rnd)
    requires 1 <= w < DimLimit && 1 <= h < DimLimit
    requires 2 * w > n * h
    ensures rnd(Ratio(w, h)) > (n as real) / 2.0
  {
    var q, t := Ratio(w, h), (n as real) / 2.0;
    var W, H, e := w as real, h as real, UnitRoundoff;
    RatioInNormalRange(w, h);
    var lo := q - q * e;
    assert lo <= rnd(q);
    assert q * H == W;
    assert W * e < 0.5;
    assert 2.0 * W >= (n as real) * H + 1.0;
    MarginAbove(q, W, H, e, n as real);
    ScaleLess(t, lo, H);
  }

  /** Rounding the quotient does not move it across a band end n/2 that is
      itself a double: below, equal and above are kept. */
  lemma RoundedRatioCompare(rnd: real -> real, w: nat, h: nat, n: nat)
    requires RelativeErrorBounded(rnd)
    requires rnd((n as real) / 2.0) == (n as real) / 2.0
    requires 1 <= w < DimLimit && 1 <= h < DimLimit
    ensures rnd(Ratio(w, h)) < (n as real) / 2.0 <==> 2 * w < n * h
    ensures rnd(Ratio(w, h)) > (n as real) / 2.0 <==> 2 * w > n * h
  {
    if 2 * w < n * h {
      RoundedStaysBelow(rnd, w, h, n);
    } else if 2 * w > n * h {
      RoundedStaysAbove(rnd, w, h, n);
    } else {
      RatioBelowIff(w, h, n);
      RatioAboveIff(w, h, n);
      assert Ratio(w, h) == (n as real) / 2.0;
    }
  }
}
