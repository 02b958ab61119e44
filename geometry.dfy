/** The box coordinate transform of the editor (static/app.js:102-154):
    a stored box is a centre and a size, each a fraction of the unrotated
    image; on the canvas it is drawn as a top-left rectangle in canvas
    pixels under one of four view rotations. */
module Geometry {
  import opened Types

  /** The view rotation, in degrees clockwise. */
  datatype Rotation = R0 | R90 | R180 | R270

  /** What the transforms read from the page: the image's natural size
      (0 while the image is not decoded) and the canvas's pixel size. */
  datatype Surface = Surface(naturalWidth: nat, naturalHeight: nat, canvasWidth: nat, canvasHeight: nat)

  /** A rectangle in canvas pixels: top-left corner and size. */
  datatype Rect = Rect(x: real, y: real, w: real, h: real)

  /** A normalized box without its class: centre and size as fractions. */
  datatype Frac = Frac(x: real, y: real, w: real, h: real)

  /** At 90 and 270 degrees the displayed image is on its side. */
  predicate Swaps(rot: Rotation)
  {
    rot == R90 || rot == R270
  }

  predicate Decoded(s: Surface)
  {
    s.naturalWidth > 0 && s.naturalHeight > 0
  }

  /** Canvas pixels per image pixel along the canvas's x axis. */
  function ScaleX(rot: Rotation, s: Surface): real
    requires Decoded(s)
  {
    if Swaps(rot) then s.canvasWidth as real / s.naturalHeight as real
    else s.canvasWidth as real / s.naturalWidth as real
  }

  /** Canvas pixels per image pixel along the canvas's y axis. */
  function ScaleY(rot: Rotation, s: Surface): real
    requires Decoded(s)
  {
    if Swaps(rot) then s.canvasHeight as real / s.naturalWidth as real
    else s.canvasHeight as real / s.naturalHeight as real
  }

  /** A box's centre and size in pixels. */
  datatype Frame = Frame(cx: real, cy: real, bw: real, bh: real)

  /** The box in pixels of the unrotated image. */
  function ToPixels(b: Box, nw: real, nh: real): Frame
  {
    Frame(b.x * nw, b.y * nh, b.w * nw, b.h * nh)
  }

  /** The box in pixels of the rotated image (app.js:114-124): the
      complete group of quarter turns, with the size swapped at 90 and
      270 degrees. */
  function RotateFrame(f: Frame, rot: Rotation, nw: real, nh: real): Frame
  {
    match rot
    case R0 => f
    case R180 => Frame(nw - f.cx, nh - f.cy, f.bw, f.bh)
    case R90 => Frame(f.cy, nw - f.cx, f.bh, f.bw)
    case R270 => Frame(nh - f.cy, f.cx, f.bh, f.bw)
  }

  /** The four cases form the group of quarter turns: two quarter turns
      make the half turn, a quarter turn and a three-quarter turn cancel,
      and four quarter turns change nothing. Each turn lays the image on
      its side, so its width and height trade places for the next. */
  lemma QuarterTurnsCompose(f: Frame, nw: real, nh: real)
    ensures RotateFrame(RotateFrame(f, R90, nw, nh), R90, nh, nw) == RotateFrame(f, R180, nw, nh)
    ensures RotateFrame(RotateFrame(f, R90, nw, nh), R270, nh, nw) == f
    ensures RotateFrame(RotateFrame(RotateFrame(RotateFrame(f, R90, nw, nh), R90, nh, nw), R90, nw, nh), R90, nh, nw) == f
  {
  }

  /** The top-left rectangle of a rotated frame on the canvas. */
  function ScaleToRect(f: Frame, sx: real, sy: real): Rect
  {
    Rect((f.cx - f.bw / 2.0) * sx, (f.cy - f.bh / 2.0) * sy, f.bw * sx, f.bh * sy)
  }

  /** `normalizedToDisplayRect`: no rectangle while the natural size is
      unknown; otherwise the box's centre and size in image pixels are
      remapped for the rotation and scaled to the canvas. */
  function NormalizedToDisplayRect(b: Box, rot: Rotation, s: Surface): (r: Option<Rect>)
    ensures r.None? <==> !Decoded(s)
  {
    if !Decoded(s) then None
    else
      var nw, nh := s.naturalWidth as real, s.naturalHeight as real;
      Some(ScaleToRect(RotateFrame(ToPixels(b, nw, nh), rot, nw, nh), ScaleX(rot, s), ScaleY(rot, s)))
  }

  /** A canvas rectangle's centre and size in rotated-image pixels
      (app.js:141-144 and the divided sizes of 146-149). */
  function RectToFrame(r: Rect, sx: real, sy: real): Frame
    requires sx != 0.0 && sy != 0.0
  {
    Frame((r.x + r.w / 2.0) / sx, (r.y + r.h / 2.0) / sy, r.w / sx, r.h / sy)
  }

  /** Back from rotated-image pixels to unrotated-image pixels
      (app.js:146-149), branch by branch. */
  function UnrotateFrame(f: Frame, rot: Rotation, nw: real, nh: real): Frame
  {
    match rot
    case R0 => f
    case R90 => Frame(nw - f.cy, f.cx, f.bh, f.bw)
    case R180 => Frame(nw - f.cx, nh - f.cy, f.bw, f.bh)
    case R270 => Frame(f.cy, nh - f.cx, f.bh, f.bw)
  }

  /** `displayRectToNormalized` before its final rounding: the four
      fractions the source passes to `round`. */
  function UnroundedNormalized(r: Rect, rot: Rotation, s: Surface): (f: Option<Frac>)
    requires s.canvasWidth > 0 && s.canvasHeight > 0
    ensures f.None? <==> !Decoded(s)
  {
    if !Decoded(s) then None
    else
      var nw, nh := s.naturalWidth as real, s.naturalHeight as real;
      Some(FromPixels(UnrotateFrame(RectToFrame(r, ScaleX(rot, s), ScaleY(rot, s)), rot, nw, nh), nw, nh))
  }

  /** Pixels of the unrotated image back to fractions of its size. */
  function FromPixels(f: Frame, nw: real, nh: real): Frac
    requires nw != 0.0 && nh != 0.0
  {
    Frac(f.cx / nw, f.cy / nh, f.bw / nw, f.bh / nh)
  }

  /** `round`: `Math.round(v * 10000) / 10000`, where `Math.round` rounds
      halves toward positive infinity. The result is on the 1/10000 grid
      and at most half a step from v. */
  function Round(v: real): (r: real)
    ensures v - 0.00005 < r <= v + 0.00005
    ensures OnGrid(r)
  {
    var k := (v * 10000.0 + 0.5).Floor;
    assert (k as real / 10000.0) * 10000.0 == k as real;
    k as real / 10000.0
  }

  /** v has at most four decimal digits. */
  predicate OnGrid(v: real)
  {
    (v * 10000.0).Floor as real == v * 10000.0
  }

  /** `displayRectToNormalized`: the unrounded fractions, each rounded. */
  function DisplayRectToNormalized(r: Rect, rot: Rotation, s: Surface): (f: Option<Frac>)
    requires s.canvasWidth > 0 && s.canvasHeight > 0
    ensures f.None? <==> !Decoded(s)
  {
    match UnroundedNormalized(r, rot, s)
    case None => None
    case Some(e) => Some(Frac(Round(e.x), Round(e.y), Round(e.w), Round(e.h)))
  }

  /** Rounding leaves a value on the grid unchanged. */
  lemma RoundOnGrid(v: real)
    requires OnGrid(v)
    ensures Round(v) == v
  {
    var k := (v * 10000.0).Floor;
    assert v * 10000.0 + 0.5 == k as real + 0.5;
    assert (v * 10000.0 + 0.5).Floor == k;
  }

  /** Rounding is idempotent. */
  lemma RoundIdempotent(v: real)
    ensures Round(Round(v)) == Round(v)
  {
    RoundOnGrid(Round(v));
  }

  lemma Cancel(a: real, s: real)
    requires s != 0.0
    ensures (a * s) / s == a
  {
  }

  lemma CancelRatio(a: real, n: real, d: real)
    requires n > 0.0
    ensures a * n * (d / n) == a * d
  {
  }

  /** Scaling to the canvas and reading the rectangle back are inverse. */
  lemma {:induction false} ScaleRoundTrip(f: Frame, sx: real, sy: real)
    requires sx != 0.0 && sy != 0.0
    ensures RectToFrame(ScaleToRect(f, sx, sy), sx, sy) == f
  {
    var r := ScaleToRect(f, sx, sy);
    assert r.x + r.w / 2.0 == f.cx * sx;
    assert r.y + r.h / 2.0 == f.cy * sy;
    Cancel(f.cx, sx);
    Cancel(f.cy, sy);
    Cancel(f.bw, sx);
    Cancel(f.bh, sy);
  }

  /** Each rotation branch of the inverse undoes the same branch of the
      forward transform, including the size swap. */
  lemma {:induction false} RotateRoundTrip(f: Frame, rot: Rotation, nw: real, nh: real)
    ensures UnrotateFrame(RotateFrame(f, rot, nw, nh), rot, nw, nh) == f
  {
    match rot
    case R0 =>
    case R90 =>
    case R180 =>
    case R270 =>
  }

  /** The inverse transform undoes the forward one exactly, before
      rounding, for every rotation and every decoded image on a non-empty
      canvas. */
  lemma {:induction false} UnroundedRoundTrip(b: Box, rot: Rotation, s: Surface)
    requires Decoded(s) && s.canvasWidth > 0 && s.canvasHeight > 0
    ensures NormalizedToDisplayRect(b, rot, s).Some?
    ensures UnroundedNormalized(NormalizedToDisplayRect(b, rot, s).value, rot, s)
            == Some(Frac(b.x, b.y, b.w, b.h))
  {
    var nw, nh := s.naturalWidth as real, s.naturalHeight as real;
    var sx, sy := ScaleX(rot, s), ScaleY(rot, s);
    assert sx > 0.0 && sy > 0.0;
    var p := ToPixels(b, nw, nh);
    var r := ScaleToRect(RotateFrame(p, rot, nw, nh), sx, sy);
    assert NormalizedToDisplayRect(b, rot, s) == Some(r);
    ScaleRoundTrip(RotateFrame(p, rot, nw, nh), sx, sy);
    RotateRoundTrip(p, rot, nw, nh);
    PixelsRoundTrip(b, nw, nh);
  }

  /** Fractions to pixels and back. */
  lemma PixelsRoundTrip(b: Box, nw: real, nh: real)
    requires nw != 0.0 && nh != 0.0
    ensures FromPixels(ToPixels(b, nw, nh), nw, nh) == Frac(b.x, b.y, b.w, b.h)
  {
    Cancel(b.x, nw);
    Cancel(b.y, nh);
    Cancel(b.w, nw);
    Cancel(b.h, nh);
  }

  /** After rounding, every field comes back within 0.00005 of the box. */
  lemma {:induction false} RoundedRoundTrip(b: Box, rot: Rotation, s: Surface)
    requires Decoded(s) && s.canvasWidth > 0 && s.canvasHeight > 0
    ensures NormalizedToDisplayRect(b, rot, s).Some?
    ensures var f := DisplayRectToNormalized(NormalizedToDisplayRect(b, rot, s).value, rot, s);
            f.Some?
            && b.x - 0.00005 < f.value.x <= b.x + 0.00005
            && b.y - 0.00005 < f.value.y <= b.y + 0.00005
            && b.w - 0.00005 < f.value.w <= b.w + 0.00005
            && b.h - 0.00005 < f.value.h <= b.h + 0.00005
  {
    UnroundedRoundTrip(b, rot, s);
  }

  /** A box whose fields are stored with four decimals, as the editor
      stores them, comes back exactly. */
  lemma {:induction false} StoredBoxRoundTrip(b: Box, rot: Rotation, s: Surface)
    requires Decoded(s) && s.canvasWidth > 0 && s.canvasHeight > 0
    requires OnGrid(b.x) && OnGrid(b.y) && OnGrid(b.w) && OnGrid(b.h)
    ensures NormalizedToDisplayRect(b, rot, s).Some?
    ensures DisplayRectToNormalized(NormalizedToDisplayRect(b, rot, s).value, rot, s)
            == Some(Frac(b.x, b.y, b.w, b.h))
  {
    UnroundedRoundTrip(b, rot, s);
    RoundOnGrid(b.x);
    RoundOnGrid(b.y);
    RoundOnGrid(b.w);
    RoundOnGrid(b.h);
  }

  /** Where the box lands on the canvas, independently of the image's
      natural size: its size is its fractional size times the canvas size,
      with width and height exchanged at 90 and 270 degrees; its centre is
      the box's fractional centre turned by the rotation, times the canvas
      size. */
  ghost predicate Placed(b: Box, rot: Rotation, s: Surface)
  {
    && NormalizedToDisplayRect(b, rot, s).Some?
    && var r := NormalizedToDisplayRect(b, rot, s).value;
       var W, H := s.canvasWidth as real, s.canvasHeight as real;
       && r.w == (if Swaps(rot) then b.h else b.w) * W
       && r.h == (if Swaps(rot) then b.w else b.h) * H
       && r.x + r.w / 2.0 == TurnedX(b, rot) * W
       && r.y + r.h / 2.0 == TurnedY(b, rot) * H
  }

  /** Every decoded image places every box as `Placed` says. */
  lemma {:induction false} DisplayRectPlacement(b: Box, rot: Rotation, s: Surface)
    requires Decoded(s)
    ensures Placed(b, rot, s)
  {
    match rot
    case R0 => PlacedUpright(b, s);
    case R180 => PlacedHalf(b, s);
    case R90 => PlacedQuarter(b, s);
    case R270 => PlacedThreeQuarters(b, s);
  }

  /** Centre and size of a scaled rectangle. */
  lemma ScaledCentre(f: Frame, sx: real, sy: real)
    ensures var r := ScaleToRect(f, sx, sy);
            r.w == f.bw * sx && r.h == f.bh * sy
            && r.x + r.w / 2.0 == f.cx * sx && r.y + r.h / 2.0 == f.cy * sy
  {
  }

  lemma PlacedUpright(b: Box, s: Surface)
    requires Decoded(s)
    ensures Placed(b, R0, s)
  {
    var nw, nh := s.naturalWidth as real, s.naturalHeight as real;
    var W, H := s.canvasWidth as real, s.canvasHeight as real;
    var f := RotateFrame(ToPixels(b, nw, nh), R0, nw, nh);
    assert ScaleX(R0, s) == W / nw && ScaleY(R0, s) == H / nh;
    ScaledCentre(f, W / nw, H / nh);
    TurnedScaledUpright(b, nw, nh, W, H);
  }

  lemma PlacedHalf(b: Box, s: Surface)
    requires Decoded(s)
    ensures Placed(b, R180, s)
  {
    var nw, nh := s.naturalWidth as real, s.naturalHeight as real;
    var W, H := s.canvasWidth as real, s.canvasHeight as real;
    var f := RotateFrame(ToPixels(b, nw, nh), R180, nw, nh);
    assert ScaleX(R180, s) == W / nw && ScaleY(R180, s) == H / nh;
    ScaledCentre(f, W / nw, H / nh);
    TurnedScaledHalf(b, nw, nh, W, H);
  }

  lemma PlacedQuarter(b: Box, s: Surface)
    requires Decoded(s)
    ensures Placed(b, R90, s)
  {
    var nw, nh := s.naturalWidth as real, s.naturalHeight as real;
    var W, H := s.canvasWidth as real, s.canvasHeight as real;
    var f := RotateFrame(ToPixels(b, nw, nh), R90, nw, nh);
    assert ScaleX(R90, s) == W / nh && ScaleY(R90, s) == H / nw;
    ScaledCentre(f, W / nh, H / nw);
    TurnedScaledQuarter(b, nw, nh, W, H);
  }

  lemma PlacedThreeQuarters(b: Box, s: Surface)
    requires Decoded(s)
    ensures Placed(b, R270, s)
  {
    var nw, nh := s.naturalWidth as real, s.naturalHeight as real;
    var W, H := s.canvasWidth as real, s.canvasHeight as real;
    var f := RotateFrame(ToPixels(b, nw, nh), R270, nw, nh);
    assert ScaleX(R270, s) == W / nh && ScaleY(R270, s) == H / nw;
    ScaledCentre(f, W / nh, H / nw);
    TurnedScaledThreeQuarters(b, nw, nh, W, H);
  }

  lemma TurnedScaledUpright(b: Box, nw: real, nh: real, W: real, H: real)
    requires nw > 0.0 && nh > 0.0
    ensures var f := RotateFrame(ToPixels(b, nw, nh), R0, nw, nh);
            && f.bw * (W / nw) == b.w * W && f.bh * (H / nh) == b.h * H
            && f.cx * (W / nw) == b.x * W && f.cy * (H / nh) == b.y * H
  {
    CancelRatio(b.w, nw, W);
    CancelRatio(b.h, nh, H);
    CancelRatio(b.x, nw, W);
    CancelRatio(b.y, nh, H);
  }

  lemma TurnedScaledHalf(b: Box, nw: real, nh: real, W: real, H: real)
    requires nw > 0.0 && nh > 0.0
    ensures var f := RotateFrame(ToPixels(b, nw, nh), R180, nw, nh);
            && f.bw * (W / nw) == b.w * W && f.bh * (H / nh) == b.h * H
            && f.cx * (W / nw) == (1.0 - b.x) * W && f.cy * (H / nh) == (1.0 - b.y) * H
  {
    CancelRatio(b.w, nw, W);
    CancelRatio(b.h, nh, H);
    Complement(b.x, nw, W);
    Complement(b.y, nh, H);
  }

  lemma TurnedScaledQuarter(b: Box, nw: real, nh: real, W: real, H: real)
    requires nw > 0.0 && nh > 0.0
    ensures var f := RotateFrame(ToPixels(b, nw, nh), R90, nw, nh);
            && f.bw * (W / nh) == b.h * W && f.bh * (H / nw) == b.w * H
            && f.cx * (W / nh) == b.y * W && f.cy * (H / nw) == (1.0 - b.x) * H
  {
    CancelRatio(b.h, nh, W);
    CancelRatio(b.w, nw, H);
    CancelRatio(b.y, nh, W);
    Complement(b.x, nw, H);
  }

  lemma TurnedScaledThreeQuarters(b: Box, nw: real, nh: real, W: real, H: real)
    requires nw > 0.0 && nh > 0.0
    ensures var f := RotateFrame(ToPixels(b, nw, nh), R270, nw, nh);
            && f.bw * (W / nh) == b.h * W && f.bh * (H / nw) == b.w * H
            && f.cx * (W / nh) == (1.0 - b.y) * W && f.cy * (H / nw) == b.x * H
  {
    CancelRatio(b.h, nh, W);
    CancelRatio(b.w, nw, H);
    Complement(b.y, nh, W);
    CancelRatio(b.x, nw, H);
  }

  lemma Complement(a: real, n: real, d: real)
    requires n > 0.0
    ensures (n - a * n) * (d / n) == (1.0 - a) * d
  {
    assert n - a * n == (1.0 - a) * n;
    CancelRatio(1.0 - a, n, d);
  }

  /** The box's fractional centre as seen in the rotated view. */
  function TurnedX(b: Box, rot: Rotation): real
  {
    match rot
    case R0 => b.x
    case R90 => b.y
    case R180 => 1.0 - b.x
    case R270 => 1.0 - b.y
  }

  function TurnedY(b: Box, rot: Rotation): real
  {
    match rot
    case R0 => b.y
    case R90 => 1.0 - b.x
    case R180 => 1.0 - b.y
    case R270 => b.x
  }

  /** The scale factors themselves: at 0 and 180 degrees the canvas width
      is matched to the natural width, at 90 and 270 to the natural height,
      so the box's pixel height becomes the displayed width. */
  lemma {:induction false} SwapScales(b: Box, rot: Rotation, s: Surface)
    requires Decoded(s)
    ensures NormalizedToDisplayRect(b, rot, s).Some?
    ensures var r := NormalizedToDisplayRect(b, rot, s).value;
            var nw, nh := s.naturalWidth as real, s.naturalHeight as real;
            var W, H := s.canvasWidth as real, s.canvasHeight as real;
            if Swaps(rot) then r.w == (b.h * nh) * (W / nh) && r.h == (b.w * nw) * (H / nw)
            else r.w == (b.w * nw) * (W / nw) && r.h == (b.h * nh) * (H / nh)
  {
  }

  /** Example: an 800x600 image on a 400x300 canvas, unrotated. */
  lemma ExampleUnrotated()
    ensures NormalizedToDisplayRect(Box(0.5, 0.5, 0.25, 0.2, 1), R0, Surface(800, 600, 400, 300))
            == Some(Rect(150.0, 120.0, 100.0, 60.0))
  {
    var s := Surface(800, 600, 400, 300);
    assert ScaleX(R0, s) == 0.5 && ScaleY(R0, s) == 0.5;
    var f := ToPixels(Box(0.5, 0.5, 0.25, 0.2, 1), 800.0, 600.0);
    assert f == Frame(400.0, 300.0, 200.0, 120.0);
    assert ScaleToRect(f, 0.5, 0.5) == Rect(150.0, 120.0, 100.0, 60.0);
  }

  /** Example: the same box at 90 degrees on a 300x400 canvas. */
  lemma ExampleQuarterTurn()
    ensures NormalizedToDisplayRect(Box(0.5, 0.5, 0.25, 0.2, 1), R90, Surface(800, 600, 300, 400))
            == Some(Rect(120.0, 150.0, 60.0, 100.0))
  {
    var s := Surface(800, 600, 300, 400);
    assert ScaleX(R90, s) == 0.5 && ScaleY(R90, s) == 0.5;
  }
}
