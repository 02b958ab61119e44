/** The rotate route's direction-to-angle map (main.py:165-185) and where
    the image library's quarter turns move each pixel. */
module Rotate {
  import opened Types

  /** A rotate request needs the direction 'left' or 'right' (main.py:171);
      the angle then passed to the image library (main.py:180). */
  function RotateAngle(direction: string): Option<int>
  {
    if direction == "left" then Some(270)
    else if direction == "right" then Some(90)
    else None
  }

  /** A pixel position in an image. */
  datatype Pixel = Pixel(x: int, y: int)

  /** One counter-clockwise quarter turn of a w-by-h image: the pixel at
      (x, y) moves to (y, w-1-x) of the h-by-w result. */
  function CcwQuarter(w: int, p: Pixel): Pixel
  {
    Pixel(p.y, w - 1 - p.x)
  }

  /** One clockwise quarter turn of a w-by-h image: (x, y) moves to
      (h-1-y, x). */
  function CwQuarter(h: int, p: Pixel): Pixel
  {
    Pixel(h - 1 - p.y, p.x)
  }

  /** The image library's `rotate(angle, expand=True)` for a multiple of 90
      degrees: angles count counter-clockwise, so the image takes
      angle/90 counter-clockwise quarter turns, its sides swapping each
      time. */
  function LibraryRotate(quarters: nat, w: int, h: int, p: Pixel): Pixel
    decreases quarters
  {
    if quarters == 0 then p
    else LibraryRotate(quarters - 1, h, w, CcwQuarter(w, p))
  }

  /** Where a pixel ends up after a rotate request, as written. */
  function RotatedPixel(direction: string, w: int, h: int, p: Pixel): Option<Pixel>
  {
    match RotateAngle(direction)
    case None => None
    case Some(angle) => Some(LibraryRotate(if angle == 270 then 3 else 1, w, h, p))
  }

  /** As written, 'left' turns the image clockwise and 'right' turns it
      counter-clockwise. */
  lemma {:induction false} DirectionsReversed(w: int, h: int, p: Pixel)
    ensures RotateAngle("left") == Some(270) && RotateAngle("right") == Some(90)
    ensures RotatedPixel("left", w, h, p) == Some(CwQuarter(h, p))
    ensures RotatedPixel("right", w, h, p) == Some(CcwQuarter(w, p))
    ensures forall d :: RotateAngle(d).None? <==> d != "left" && d != "right"
  {
    assert "right" != "left";
    QuarterTurns(w, h, p);
  }

  /** One counter-clockwise quarter is angle 90; three of them, angle 270,
      make one clockwise quarter. */
  lemma {:induction false} QuarterTurns(w: int, h: int, p: Pixel)
    ensures LibraryRotate(1, w, h, p) == CcwQuarter(w, p)
    ensures LibraryRotate(3, w, h, p) == CwQuarter(h, p)
  {
    var p1 := CcwQuarter(w, p);
    var p2 := CcwQuarter(h, p1);
    var p3 := CcwQuarter(w, p2);
    assert LibraryRotate(3, w, h, p) == LibraryRotate(2, h, w, p1) == LibraryRotate(1, w, h, p2);
    assert LibraryRotate(1, w, h, p2) == LibraryRotate(0, h, w, p3) == p3;
    assert LibraryRotate(1, w, h, p) == LibraryRotate(0, h, w, p1);
  }

  /** The evident intent: 'left' is a counter-clockwise turn (angle 90) and
      'right' a clockwise one (angle 270). */
  function RotateAngleCorrected(direction: string): Option<int>
  {
    if direction == "left" then Some(90)
    else if direction == "right" then Some(270)
    else None
  }

  function RotatedPixelCorrected(direction: string, w: int, h: int, p: Pixel): Option<Pixel>
  {
    match RotateAngleCorrected(direction)
    case None => None
    case Some(angle) => Some(LibraryRotate(if angle == 270 then 3 else 1, w, h, p))
  }

  /** With the corrected map, 'left' turns counter-clockwise, 'right'
      clockwise, and any other direction is refused. */
  lemma {:induction false} CorrectedDirections(direction: string, w: int, h: int, p: Pixel)
    ensures direction == "left" ==> RotatedPixelCorrected(direction, w, h, p) == Some(CcwQuarter(w, p))
    ensures direction == "right" ==> RotatedPixelCorrected(direction, w, h, p) == Some(CwQuarter(h, p))
    ensures RotatedPixelCorrected(direction, w, h, p).None? <==> direction != "left" && direction != "right"
  {
    assert "right" != "left";
    QuarterTurns(w, h, p);
  }

  /** Turning left and then right with the corrected map puts every pixel
      back where it was. */
  lemma {:induction false} LeftThenRightRestores(w: int, h: int, p: Pixel)
    ensures RotatedPixelCorrected("right", h, w, CcwQuarter(w, p)) == Some(p)
  {
    CorrectedDirections("right", h, w, CcwQuarter(w, p));
  }
}
