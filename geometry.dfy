/**
 * Pixel arithmetic of the crop step: scaling a normalised detector box to
 * pixels with Python's `int()`, padding it, clamping it to the frame, and
 * deciding whether the NumPy crop `frame[y1:y2, x1:x2]` is non-empty.
 */
module Geometry {

  /** Python's `int()` on a float: truncation toward zero. */
  function Trunc(r: real): (t: int)
    ensures r >= 0.0 ==> t >= 0 && t as real <= r < t as real + 1.0
    ensures r < 0.0 ==> t <= 0 && t as real - 1.0 < r <= t as real
  {
    if r >= 0.0 then r.Floor else -((-r).Floor)
  }

  /** A detector box in normalised coordinates `xyxyn` (fractions of the frame size). */
  datatype NormBox = NormBox(x1: real, y1: real, x2: real, y2: real)

  /** A box in pixel coordinates. */
  datatype Box = Box(x1: int, y1: int, x2: int, y2: int)

  /** `int(row[0]*width)`, `int(row[1]*height)`, ...: the pixel box of a detection. */
  function ToPixels(b: NormBox, width: nat, height: nat): Box {
    Box(Trunc(b.x1 * width as real), Trunc(b.y1 * height as real),
        Trunc(b.x2 * width as real), Trunc(b.y2 * height as real))
  }

  function Max(a: int, b: int): int { if a >= b then a else b }
  function Min(a: int, b: int): int { if a <= b then a else b }

  /**
   * Grows `b` by `padX`/`padY` on each side and clamps it to the frame: the
   * result never starts left of or above the origin, never ends past the
   * frame's width or height, and, when the padding is non-negative and `b`
   * already lies in the frame, it contains `b`.
   */
  function PadAndClamp(b: Box, padX: int, padY: int, width: nat, height: nat): (r: Box)
    ensures 0 <= r.x1 && 0 <= r.y1 && r.x2 <= width && r.y2 <= height
    ensures padX >= 0 && padY >= 0 && 0 <= b.x1 && 0 <= b.y1 && b.x2 <= width && b.y2 <= height ==>
      r.x1 <= b.x1 && r.y1 <= b.y1 && b.x2 <= r.x2 && b.y2 <= r.y2
    ensures padX >= 0 && padY >= 0 && 0 <= b.x1 - padX && b.x2 + padX <= width ==>
      r.x1 == b.x1 - padX && r.x2 == b.x2 + padX
    ensures padX >= 0 && padY >= 0 && 0 <= b.y1 - padY && b.y2 + padY <= height ==>
      r.y1 == b.y1 - padY && r.y2 == b.y2 + padY
  {
    Box(Max(0, b.x1 - padX), Max(0, b.y1 - padY), Min(width, b.x2 + padX), Min(height, b.y2 + padY))
  }

  /** The 5% padding of video_plate_recognition.py: `int((x2 - x1) * 0.05)`, `int((y2 - y1) * 0.05)`. */
  function FivePercentBox(b: NormBox, width: nat, height: nat): (r: Box)
    ensures 0 <= r.x1 && 0 <= r.y1 && r.x2 <= width && r.y2 <= height
    ensures var p := ToPixels(b, width, height);
      p.x1 <= p.x2 && p.y1 <= p.y2 && 0 <= p.x1 && 0 <= p.y1 && p.x2 <= width && p.y2 <= height ==>
        r.x1 <= p.x1 && r.y1 <= p.y1 && p.x2 <= r.x2 && p.y2 <= r.y2
  {
    var p := ToPixels(b, width, height);
    PadAndClamp(p, Trunc((p.x2 - p.x1) as real * 0.05), Trunc((p.y2 - p.y1) as real * 0.05), width, height)
  }

  /** The fixed two-pixel padding of video_plate_recognition_raspi.py. */
  const RaspiPad: int := 2

  function TwoPixelBox(b: NormBox, width: nat, height: nat): (r: Box)
    ensures 0 <= r.x1 && 0 <= r.y1 && r.x2 <= width && r.y2 <= height
    ensures var p := ToPixels(b, width, height);
      2 <= p.x1 && 2 <= p.y1 && p.x2 + 2 <= width && p.y2 + 2 <= height ==>
        r == Box(p.x1 - 2, p.y1 - 2, p.x2 + 2, p.y2 + 2)
  {
    PadAndClamp(ToPixels(b, width, height), RaspiPad, RaspiPad, width, height)
  }

  /** Python's normalisation of a slice bound `i` on an axis of length `n`. */
  function SliceBound(i: int, n: nat): (r: nat)
    ensures r <= n
  {
    if i < 0 then (if i + n < 0 then 0 else i + n) else if i > n then n else i
  }

  /** Length of the slice `[lo:hi]` on an axis of length `n`, negative indices counting from the end. */
  function SliceLen(lo: int, hi: int, n: nat): nat {
    var a, b := SliceBound(lo, n), SliceBound(hi, n);
    if b > a then b - a else 0
  }

  /** `plate_crop.size > 0` for `plate_crop = frame[y1:y2, x1:x2]`. */
  predicate CropNonEmpty(b: Box, width: nat, height: nat) {
    SliceLen(b.y1, b.y2, height) > 0 && SliceLen(b.x1, b.x2, width) > 0
  }

  /**
   * For a clamped box whose far corner is not negative, the crop is non-empty
   * exactly when the box has positive width and height.
   */
  lemma ClampedCropNonEmpty(b: Box, width: nat, height: nat)
    requires 0 <= b.x1 && 0 <= b.y1 && 0 <= b.x2 <= width && 0 <= b.y2 <= height
    ensures CropNonEmpty(b, width, height) <==> b.x1 < b.x2 && b.y1 < b.y2
  {
  }
}
