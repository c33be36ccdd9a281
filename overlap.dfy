/** Intersection over union of a track's box and a detection's box, both
    scaled to a W by H canvas, with (x, y) taken as the top-left corner. */
module Overlap {
  import opened TrackerTypes
  import opened RealArith

  /** An axis-aligned box by its two corners, (x1, y1) and (x2, y2). */
  datatype Rect = Rect(x1: real, y1: real, x2: real, y2: real)

  function Max(a: real, b: real): real { if a < b then b else a }
  function Min(a: real, b: real): real { if b < a then b else a }

  /** The box at (x, y) of size w by h, multiplied out to pixels. */
  function PixelRect(x: real, y: real, w: real, h: real, W: int, H: int): (r: Rect)
    ensures r.x2 - r.x1 == w * W as real && r.y2 - r.y1 == h * H as real
  {
    var x1 := x * W as real;
    var y1 := y * H as real;
    Rect(x1, y1, x1 + w * W as real, y1 + h * H as real)
  }

  /** Signed area of a box (negative when one extent is). */
  function Area(r: Rect): real { (r.x2 - r.x1) * (r.y2 - r.y1) }

  /** The overlap of the two boxes along x and along y, clamped at zero. */
  function OverlapX(a: Rect, b: Rect): real { Max(0.0, Min(a.x2, b.x2) - Max(a.x1, b.x1)) }
  function OverlapY(a: Rect, b: Rect): real { Max(0.0, Min(a.y2, b.y2) - Max(a.y1, b.y1)) }

  function InterArea(a: Rect, b: Rect): (r: real)
    ensures r >= 0.0
  {
    MulNonNeg(OverlapX(a, b), OverlapY(a, b));
    OverlapX(a, b) * OverlapY(a, b)
  }

  function UnionArea(a: Rect, b: Rect): real { Area(a) + Area(b) - InterArea(a, b) }

  /** IoU of two boxes; a union of zero gives zero. */
  function RectIoU(a: Rect, b: Rect): real
  {
    var u := UnionArea(a, b);
    if u == 0.0 then 0.0 else InterArea(a, b) / u
  }

  /** The tracker's overlap score of track t against detection d on a W by H canvas. */
  function ComputeIoU(t: Track, d: Detection, W: int, H: int): (r: real)
    ensures 0.0 <= r <= 1.0
  {
    var a := PixelRect(t.x, t.y, t.width, t.height, W, H);
    var b := PixelRect(d.x, d.y, d.width, d.height, W, H);
    IoUBounds(a, b);
    RectIoU(a, b)
  }

  lemma RatioAtMostOne(i: real, u: real)
    requires 0.0 < i <= u
    ensures i / u <= 1.0
  {
    var q := i / u;
    assert q * u == i;
    if q > 1.0 {
      assert q * u > 1.0 * u;
    }
  }

  /** A positive intersection lies inside both boxes, so it is no larger
      than either area. */
  lemma InterWithinAreas(a: Rect, b: Rect)
    requires InterArea(a, b) > 0.0
    ensures InterArea(a, b) <= Area(a) && InterArea(a, b) <= Area(b)
  {
    var ox, oy := OverlapX(a, b), OverlapY(a, b);
    assert ox > 0.0 && oy > 0.0;
    assert ox <= a.x2 - a.x1 && ox <= b.x2 - b.x1;
    assert oy <= a.y2 - a.y1 && oy <= b.y2 - b.y1;
    MulMono(ox, oy, a.x2 - a.x1, a.y2 - a.y1);
    MulMono(ox, oy, b.x2 - b.x1, b.y2 - b.y1);
  }

  /** The zero-union guard changes nothing: a union that is not positive
      only happens with an empty intersection, where the unguarded division
      gives zero or NaN, neither of which passes a strict "greater than
      zero" test. */
  lemma NonPositiveUnionHasNoOverlap(a: Rect, b: Rect)
    ensures UnionArea(a, b) <= 0.0 ==> InterArea(a, b) == 0.0
  {
    if InterArea(a, b) > 0.0 {
      InterWithinAreas(a, b);
    }
  }

  /** IoU lies between zero and one. */
  lemma IoUBounds(a: Rect, b: Rect)
    ensures 0.0 <= RectIoU(a, b) <= 1.0
  {
    var i, u := InterArea(a, b), UnionArea(a, b);
    if i > 0.0 {
      InterWithinAreas(a, b);
      assert 0.0 < i <= u;
      RatioAtMostOne(i, u);
    } else {
      assert i == 0.0;
      if u != 0.0 {
        assert i / u == 0.0;
      }
    }
  }

  /** A box of positive width and height overlaps itself completely. */
  lemma IoUIdentical(t: Track, d: Detection, W: int, H: int)
    requires t.x == d.x && t.y == d.y && t.width == d.width && t.height == d.height
    requires d.width * W as real > 0.0 && d.height * H as real > 0.0
    ensures ComputeIoU(t, d, W, H) == 1.0
  {
    var a := PixelRect(d.x, d.y, d.width, d.height, W, H);
    assert OverlapX(a, a) == a.x2 - a.x1;
    assert OverlapY(a, a) == a.y2 - a.y1;
    assert InterArea(a, a) == Area(a);
    MulNonNeg(a.x2 - a.x1, a.y2 - a.y1);
    assert Area(a) > 0.0 by {
      assert (a.x2 - a.x1) * (a.y2 - a.y1) > 0.0;
    }
    assert UnionArea(a, a) == Area(a);
  }
}
