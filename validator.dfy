/**
  The format gate of the `/validate-format` handler: a fixed sequence of
  early-return checks that classifies an upload as accepted, carrying its
  width and height, or rejected with exactly one reason.

  The request and the image decoder are outside the model. What the gate
  learns from them is an `Upload`: no image part, a read or decode that
  raised, a decode that produced nothing, or a decoded grid of some size.
 */
module Validator {
  import opened Geometry
  import opened FloatDivision

  /** The reasons the handler reports. `SystemError` carries the text of the
      exception that the handler's catch-all turned into a verdict. */
  datatype Reason =
    | NoImage
    | ImageReadError
    | ImageTooSmall
    | InvalidLayout
    | SystemError(msg: string)

  /** What the gate learns about one request. */
  datatype Upload =
    | NoImagePart                 // the request has no `image` part
    | DecoderRaised(msg: string)  // reading or decoding the part raised, with this message
    | Undecodable                 // the decoder returned no image
    | Decoded(w: nat, h: nat)     // the decoder returned a grid w pixels wide, h high

  datatype Verdict = Reject(reason: Reason) | Accept(width: nat, height: nat)

  /** The gate, with the aspect check done on integers. Each verdict is
      characterised by the upload alone, through the size minimums and
      the band on the exact ratio w/h. */
  function Validate(u: Upload): (v: Verdict)
    ensures v == Reject(NoImage) <==> u.NoImagePart?
    ensures v == Reject(ImageReadError) <==> u.Undecodable?
    ensures (v.Reject? && v.reason.SystemError?) <==> u.DecoderRaised?
    ensures u.DecoderRaised? ==> v == Reject(SystemError(u.msg))
    ensures v == Reject(ImageTooSmall) <==> u.Decoded? && !LargeEnough(u.w, u.h)
    ensures v == Reject(InvalidLayout) <==>
              u.Decoded? && LargeEnough(u.w, u.h) && !RatioInBand(u.w, u.h)
    ensures v.Accept? <==> u.Decoded? && LargeEnough(u.w, u.h) && RatioInBand(u.w, u.h)
    ensures v.Accept? ==> v == Accept(u.w, u.h)
  {
    match u
    case NoImagePart => Reject(NoImage)
    case DecoderRaised(msg) => Reject(SystemError(msg))
    case Undecodable => Reject(ImageReadError)
    case Decoded(w, h) =>
      if !LargeEnough(w, h) then Reject(ImageTooSmall)
      else
        RatioInBandIffWithinAspect(w, h);
        if !WithinAspect(w, h) then Reject(InvalidLayout)
        else Accept(w, h)
  }

  /** The outcome of Python's `w / h` on two integers: an exception when the
      divisor is zero, otherwise the exact quotient after rounding by `rnd`. */
  datatype Division = Raised(msg: string) | Quotient(value: real)

  function TrueDivide(rnd: real -> real, w: nat, h: nat): (d: Division)
    ensures d.Raised? <==> h == 0
    ensures d.Quotient? ==> d.value == rnd(Ratio(w, h))
  {
    if h == 0 then Raised("division by zero")
    else Quotient(rnd((w as real) / (h as real)))
  }

  /** The gate as the handler writes it: the ratio is a rounded quotient
      compared with 2.5 and 6.5, and any exception raised after the image
      part is found becomes a system error. The size check runs first, so
      the division never raises: a system error can only come from the
      decoder. */
  function ValidateAsWritten(rnd: real -> real, u: Upload): (v: Verdict)
    ensures (v.Reject? && v.reason.SystemError?) <==> u.DecoderRaised?
    ensures v == Reject(ImageTooSmall) <==> u.Decoded? && !LargeEnough(u.w, u.h)
    ensures v.Accept? ==> u.Decoded? && v == Accept(u.w, u.h)
  {
    match u
    case NoImagePart => Reject(NoImage)
    case DecoderRaised(msg) => Reject(SystemError(msg))
    case Undecodable => Reject(ImageReadError)
    case Decoded(w, h) =>
      if w < MinWidth || h < MinHeight then Reject(ImageTooSmall)
      else
        match TrueDivide(rnd, w, h)
        case Raised(msg) => Reject(SystemError(msg))
        case Quotient(ratio) =>
          if ratio < AspectMin || ratio > AspectMax then Reject(InvalidLayout)
          else Accept(w, h)
  }

  /** Dimensions OpenCV can represent. */
  predicate Representable(u: Upload) {
    u.Decoded? ==> u.w < DimLimit && u.h < DimLimit
  }

  /** The integer model is faithful to the handler's floating-point
      comparisons: for every upload whose dimensions fit OpenCV's `int`, and
      every division that rounds to nearest, both give the same verdict. */
  lemma AsWrittenAgrees(rnd: real -> real, u: Upload)
    requires RoundsToNearestDouble(rnd)
    requires Representable(u)
    ensures ValidateAsWritten(rnd, u) == Validate(u)
  {
    if u.Decoded? && LargeEnough(u.w, u.h) {
      assert AspectMin == (AspectMinHalves as real) / 2.0;
      assert AspectMax == (AspectMaxHalves as real) / 2.0;
      RoundedRatioCompare(rnd, u.w, u.h, AspectMinHalves);
      RoundedRatioCompare(rnd, u.w, u.h, AspectMaxHalves);
    }
  }

  /** Acceptance in integers: both minimums met and 5*h <= 2*w <= 13*h. */
  lemma AcceptIffIntegerBounds(u: Upload)
    ensures Validate(u).Accept? <==>
              u.Decoded? && u.w >= 800 && u.h >= 250 && 5 * u.h <= 2 * u.w <= 13 * u.h
  {
  }

  /** Every bound is inclusive, and one pixel past it is rejected. The
      ratio ends 2.5 (1000 x 400) and 6.5 (1625 x 250) are accepted. */
  lemma Boundaries()
    ensures Validate(Decoded(800, 250)) == Accept(800, 250)
    ensures Validate(Decoded(799, 250)) == Reject(ImageTooSmall)
    ensures Validate(Decoded(800, 249)) == Reject(ImageTooSmall)
    ensures Validate(Decoded(1000, 400)) == Accept(1000, 400)
    ensures Validate(Decoded(1000, 401)) == Reject(InvalidLayout)
    ensures Validate(Decoded(1625, 250)) == Accept(1625, 250)
    ensures Validate(Decoded(1626, 250)) == Reject(InvalidLayout)
  {
  }

  /** The size check comes before the aspect check: a 50 x 50 icon fails
      both, and is reported as too small. A 900 x 900 square passes the size
      check and fails the band; 1000 x 300 passes both. */
  lemma Scenarios()
    ensures !WithinAspect(50, 50) && Validate(Decoded(50, 50)) == Reject(ImageTooSmall)
    ensures Validate(Decoded(900, 900)) == Reject(InvalidLayout)
    ensures Validate(Decoded(1000, 300)) == Accept(1000, 300)
  {
  }
}
