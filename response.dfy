/**
  The body the `/validate-format` handler sends back. The HTTP status is
  always 200: a caller learns the outcome from `ok` and `reason` alone.
  Serialisation to JSON is not modelled; a key the handler does not set is
  `None`.
 */
module Response {
  import opened Geometry
  import opened Validator

  datatype Option<T> = None | Some(value: T)

  datatype Body = Body(
    ok: bool,
    reason: Option<string>,
    msg: Option<string>,
    width: Option<nat>,
    height: Option<nat>)

  /** The string the handler puts under `reason`: a non-empty constant in
      upper case, words joined by underscores. */
  function Code(r: Reason): (s: string)
    ensures |s| > 0
    ensures forall i :: 0 <= i < |s| ==> 'A' <= s[i] <= 'Z' || s[i] == '_'
  {
    match r
    case NoImage => "NO_IMAGE"
    case ImageReadError => "IMAGE_READ_ERROR"
    case ImageTooSmall => "IMAGE_TOO_SMALL"
    case InvalidLayout => "INVALID_LAYOUT"
    case SystemError(_) => "SYSTEM_ERROR"
  }

  /** Two reasons share a code only when both are system errors, whose
      message travels separately under `msg`. */
  lemma CodeInjective(a: Reason, b: Reason)
    ensures Code(a) == Code(b) <==> a == b || (a.SystemError? && b.SystemError?)
  {
  }

  /** The body built for a verdict: a rejection sets `ok` false and one
      reason, plus `msg` for a system error; an acceptance sets `ok` true and
      the dimensions, and no reason. */
  function ToBody(v: Verdict): (b: Body)
    ensures b.ok <==> v.Accept?
    ensures b.ok <==> b.reason.None?
    ensures b.msg.Some? <==> v.Reject? && v.reason.SystemError?
    ensures b.width.Some? <==> b.ok
    ensures b.height.Some? <==> b.ok
    ensures v.Reject? ==> b.reason == Some(Code(v.reason))
    ensures v.Reject? && v.reason.SystemError? ==> b.msg == Some(v.reason.msg)
    ensures v.Accept? ==> b.width == Some(v.width) && b.height == Some(v.height)
  {
    match v
    case Reject(r) =>
      Body(false, Some(Code(r)), if r.SystemError? then Some(r.msg) else None, None, None)
    case Accept(w, h) =>
      Body(true, None, None, Some(w), Some(h))
  }

  /** No two verdicts produce the same body: the body is all a caller needs
      to recover the verdict. */
  lemma ToBodyInjective(v1: Verdict, v2: Verdict)
    ensures ToBody(v1) == ToBody(v2) ==> v1 == v2
  {
  }

  /** Reading the reason code back off a body names the rejection exactly. */
  lemma ReasonOfBody(v: Verdict)
    ensures ToBody(v).reason == Some("NO_IMAGE") <==> v == Reject(NoImage)
    ensures ToBody(v).reason == Some("IMAGE_READ_ERROR") <==> v == Reject(ImageReadError)
    ensures ToBody(v).reason == Some("IMAGE_TOO_SMALL") <==> v == Reject(ImageTooSmall)
    ensures ToBody(v).reason == Some("INVALID_LAYOUT") <==> v == Reject(InvalidLayout)
    ensures ToBody(v).reason == Some("SYSTEM_ERROR") <==> v.Reject? && v.reason.SystemError?
  {
  }

  /** The whole handler on an abstract upload: each reason code is reported
      exactly under its condition, checked in order, and `ok` is true exactly
      when the image is large enough and its ratio lies in the band. */
  function Handle(u: Upload): (b: Body)
    ensures b.ok <==> u.Decoded? && LargeEnough(u.w, u.h) && RatioInBand(u.w, u.h)
    ensures b.ok ==> b.reason == None && b.width == Some(u.w) && b.height == Some(u.h)
    ensures b.reason == Some("NO_IMAGE") <==> u.NoImagePart?
    ensures b.reason == Some("IMAGE_READ_ERROR") <==> u.Undecodable?
    ensures b.reason == Some("SYSTEM_ERROR") <==> u.DecoderRaised?
    ensures !b.ok ==> b.width == None && b.height == None
    ensures b.msg.Some? <==> u.DecoderRaised?
    ensures u.DecoderRaised? ==> b.msg == Some(u.msg)
    ensures b.reason == Some("IMAGE_TOO_SMALL") <==> u.Decoded? && !LargeEnough(u.w, u.h)
    ensures b.reason == Some("INVALID_LAYOUT") <==>
              u.Decoded? && LargeEnough(u.w, u.h) && !RatioInBand(u.w, u.h)
  {
    var v := Validate(u);
    ReasonOfBody(v);
    ToBody(v)
  }
}
