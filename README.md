# Receipt format gate: a Dafny model

This project models the format gate of a receipt validator. The gate is the
`POST /validate-format` handler. It gets an uploaded image and decides, from
the image's geometry alone, whether the image may go on to the OCR stage.

The handler makes its checks in a fixed order and returns at the first one
that fails:

1. The request has no `image` part: reject with `NO_IMAGE`.
2. The decoder returns no image: reject with `IMAGE_READ_ERROR`.
3. The width is under 800 or the height is under 250: reject with
   `IMAGE_TOO_SMALL`.
4. The ratio `width / height` is under 2.5 or over 6.5: reject with
   `INVALID_LAYOUT`.
5. Otherwise accept, and report the width and the height.

An exception raised inside the `try` block is caught and reported as
`SYSTEM_ERROR`, with the exception's text under `msg`.

The model has four modules:

- `Geometry` holds the thresholds and the exact ratio. It proves that the
  band on the exact ratio is the same as the integer test
  `5*h <= 2*w <= 13*h`.
- `FloatDivision` covers Python's `w / h`, which returns the nearest binary64
  value. The rounding is a parameter `rnd`. The model assumes only what
  round-to-nearest guarantees: a relative error of at most 2^-53, and no
  error on 2.5 and 6.5, which are exact doubles. From this it proves that
  rounding never moves the quotient across either end of the band, as long
  as both dimensions are below 2^31. OpenCV stores an image's dimensions in
  a C `int`, so every decoded image meets that bound.
- `Validator` has two versions of the gate.
  - `Validate` does the aspect check on integers. Its contract describes
    each verdict through the size minimums and the band on the exact
    ratio w/h.
  - `ValidateAsWritten` follows the handler line by line. It compares the
    rounded quotient against 2.5 and 6.5. Its division can raise
    `ZeroDivisionError`, and that exception would become a system error.
  - `AsWrittenAgrees` proves the two versions give the same verdict for
    every upload OpenCV can represent (both dimensions below 2^31), under
    any division that rounds to nearest.
- `Response` models the body the handler returns. It proves that the body
  determines the verdict, and it states the whole handler in terms of the
  reason strings.

The request and the decoder are outside the model. What the gate learns from
them is an `Upload`:

- `NoImagePart`: the request has no `image` part.
- `DecoderRaised(msg)`: reading or decoding the part raised an exception.
- `Undecodable`: the decoder returned no image.
- `Decoded(w, h)`: the decoder returned a grid `w` pixels wide and `h` high.

A request with no image part carries no pixels. Its verdict therefore cannot
depend on a decode or a dimension.

Points where the intended behaviour and the code may part ways. The model
follows the code:

- Other configurations of the receipt pipeline reject with further reasons
  (orientation, overlay, similarity, template matching). This handler never
  produces them and runs none of those stages.
- A zero-area decode is meant to give `IMAGE_READ_ERROR`. OpenCV's Python
  binding returns `None` for an empty image, so in practice that is what
  happens. If the decoder ever did return a zero-area grid, the code would
  send it to the size check and report `IMAGE_TOO_SMALL`; the model's
  `Decoded(0, h)` does exactly that.
- Bytes that are not an image (an empty buffer, a truncated header) are
  meant to give `IMAGE_READ_ERROR`. Whether the decoder raises or returns
  no image for them is decided by OpenCV; for example, OpenCV 4 rejects an
  empty buffer with an assertion error. The model takes that outcome as
  given, so such an input may, in the code, reach `SYSTEM_ERROR`.

## Model

| member | source | states |
|---|---|---|
| Validator.Validate | server.py:12-45 | `NO_IMAGE` happens exactly when the image part is missing. `IMAGE_READ_ERROR` happens exactly when decoding returns nothing. A system error happens exactly when reading or decoding raised, and it carries that message. `IMAGE_TOO_SMALL` happens exactly when the width is under 800 or the height under 250, whatever the ratio. `INVALID_LAYOUT` happens exactly when the size gate passes and the exact ratio w/h is outside [2.5, 6.5]. Acceptance happens exactly when both gates pass, and it carries the decoded width and height. |
| Validator.TrueDivide | server.py:34 | Python's `w / h` raises exactly when h is 0. Otherwise its value is the rounding of the exact quotient w/h. |
| Validator.ValidateAsWritten | server.py:12-53 | The literal handler, with float comparisons. A system error comes only from the decoder, so the division never raises. `IMAGE_TOO_SMALL` is decided by the size minimums alone. An accepted verdict carries the decoded dimensions. |
| Validator.AsWrittenAgrees | server.py:34-37 | For every rounding that meets round-to-nearest's error bound, and every upload with dimensions below 2^31, the literal float gate and the integer gate give the same verdict. |
| Validator.AcceptIffIntegerBounds | server.py:29-45 | An upload is accepted exactly when it decoded with `w >= 800`, `h >= 250` and `5*h <= 2*w <= 13*h`. |
| Validator.Boundaries | server.py:29-37 | All bounds are inclusive. 800x250, 1000x400 (ratio 2.5) and 1625x250 (ratio 6.5) are accepted. One pixel past a bound is rejected with the matching reason. |
| Validator.Scenarios | server.py:29-45 | A 50x50 icon fails both gates and is reported as `IMAGE_TOO_SMALL`, because the size check comes first. 900x900 gives `INVALID_LAYOUT`. 1000x300 is accepted with its dimensions. |
| Geometry.Ratio | server.py:34 | The exact quotient times h gives back w, and the quotient is not negative. |
| Geometry.RatioInBandIffWithinAspect | server.py:34-36 | For h > 0, `2.5 <= w/h <= 6.5` on the exact ratio holds exactly when `5*h <= 2*w <= 13*h`. |
| Geometry.RatioBelowIff | server.py:36 | For h > 0, `w/h < n/2` holds exactly when `2*w < n*h`. |
| Geometry.RatioAboveIff | server.py:36 | For h > 0, `w/h > n/2` holds exactly when `2*w > n*h`. |
| FloatDivision.RoundedRatioCompare | server.py:34-36 | Assume rounding has relative error at most 2^-53, rounding leaves n/2 unchanged, and both dimensions are below 2^31. Then the rounded quotient is below n/2 exactly when `2*w < n*h`, and above it exactly when `2*w > n*h`. |
| FloatDivision.RoundedStaysBelow | server.py:36 | A quotient strictly below n/2 is still below it after rounding. |
| FloatDivision.RoundedStaysAbove | server.py:36 | A quotient strictly above n/2 is still above it after rounding. |
| FloatDivision.RatioInNormalRange | server.py:25-34 | For dimensions from 1 up to (but not including) 2^31, the quotient lies in [2^-64, 2^64], where the error bound applies. |
| Response.CodeInjective | server.py:13-53 | Two reasons share a reason string exactly when they are equal, or when both are system errors. |
| Response.Code | server.py:13-51 | The reason strings `NO_IMAGE`, `IMAGE_READ_ERROR`, `IMAGE_TOO_SMALL`, `INVALID_LAYOUT` and `SYSTEM_ERROR` (lines 13, 22, 30, 37, 51). Its own contract: each is a non-empty upper-case constant. That each names exactly one kind of rejection is stated by `Response.CodeInjective` and `Response.ReasonOfBody`. |
| Response.ToBody | server.py:13-53 | `ok` is true exactly for an acceptance, and exactly when no reason is set. A rejection carries its reason string, and a system error also carries its message under `msg`; `msg` is set for nothing else. An acceptance carries the verdict's width and height, which are set exactly when `ok` is true. |
| Response.ToBodyInjective | server.py:13-53 | Different verdicts give different bodies. |
| Response.ReasonOfBody | server.py:13-53 | Each reason string in the body names exactly one kind of rejection. |
| Response.Handle | server.py:10-53 | `ok` is true exactly when the image decoded, is at least 800x250, and has an exact ratio in [2.5, 6.5]. An accepted body reports the decoded width and height; a rejected body has neither. Each reason string appears exactly under its own condition, taken in the handler's order. `msg` is set exactly for a system error, and is the exception's text. |

## Left out

- Flask routing, CORS, `jsonify` and the `app.run` entry point (server.py:1-10, 55-57). These are HTTP plumbing. `Response.Body` stands for the dictionary before serialisation.
- `file.read`, `np.frombuffer` and `cv2.imdecode` (server.py:17-19). They are foreign code. Their result is the abstract `Upload`, so the model does not decide which bytes decode.
- The `ratio` key, `round(aspect_ratio, 2)` (server.py:44). This is decimal rounding of a double. `Response.Body` has no `ratio` key. The band that the exact ratio of an accepted image lies in is stated by `Validator.Validate`.
- Binary64 values are never built. The rounding is a parameter, and only its round-to-nearest error bound and its exactness at 2.5 and 6.5 are assumed.
- Validator.AsWrittenAgrees: not stated for dimensions of 2^31 or more, because OpenCV cannot hold an image that large.
- Exceptions raised after decoding by the runtime itself, such as running out of memory, are not modelled. The catch-all is modelled for exceptions from reading and decoding, and the model proves the gate's own arithmetic raises none.
- Determinism gets no separate lemma. Every member is a function of its arguments, so equal uploads give equal verdicts.
- The receipt pipeline's other stages, namely orientation, overlay detection, structural similarity and template matching, are not part of this handler and are not modelled.
