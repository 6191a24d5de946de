/** The geometric transforms of the 2D scene: each maps a point list to a new
    point list of the same length, leaving the input untouched. */
module Transforms {
  import opened Numeric

  /** A scene point `(x, y)`; coordinates are exact reals. */
  datatype Point = Point(x: real, y: real)

  function Translate(pts: seq<Point>, tx: real, ty: real): (r: seq<Point>)
    ensures |r| == |pts|
  {
    seq(|pts|, i requires 0 <= i < |pts| => Point(pts[i].x + tx, pts[i].y + ty))
  }

  /** Scaling by `(sx, sy)` about the pivot `(px, py)`. */
  function Scale(pts: seq<Point>, sx: real, sy: real, px: real, py: real): (r: seq<Point>)
    ensures |r| == |pts|
  {
    seq(|pts|, i requires 0 <= i < |pts| =>
      Point(px + (pts[i].x - px) * sx, py + (pts[i].y - py) * sy))
  }

  /** Mirror image across the horizontal line `y = axis`. */
  function ReflectY(pts: seq<Point>, axis: real): (r: seq<Point>)
    ensures |r| == |pts|
  {
    seq(|pts|, i requires 0 <= i < |pts| => Point(pts[i].x, 2.0 * axis - pts[i].y))
  }

  /** Translating back by the opposite offset restores every point. */
  lemma TranslateInverse(pts: seq<Point>, tx: real, ty: real)
    ensures Translate(Translate(pts, tx, ty), -tx, -ty) == pts
  {
  }

  /** Two translations compose into one by the summed offset. */
  lemma TranslateCompose(pts: seq<Point>, tx1: real, ty1: real, tx2: real, ty2: real)
    ensures Translate(Translate(pts, tx1, ty1), tx2, ty2) == Translate(pts, tx1 + tx2, ty1 + ty2)
  {
  }

  /** A point at the pivot stays there, whatever the factors. */
  lemma ScaleFixesPivot(pts: seq<Point>, sx: real, sy: real, px: real, py: real)
    ensures forall i :: 0 <= i < |pts| && pts[i] == Point(px, py) ==>
      Scale(pts, sx, sy, px, py)[i] == pts[i]
  {
  }

  /** Unit factors leave every point in place, about any pivot. */
  lemma ScaleIdentity(pts: seq<Point>, px: real, py: real)
    ensures Scale(pts, 1.0, 1.0, px, py) == pts
  {
  }

  /** Scaling about a pivot keeps each point on its ray from the pivot: the
      offset from the pivot is multiplied componentwise. */
  lemma ScaleOffsets(pts: seq<Point>, sx: real, sy: real, px: real, py: real)
    ensures forall i :: 0 <= i < |pts| ==>
      Scale(pts, sx, sy, px, py)[i].x - px == (pts[i].x - px) * sx &&
      Scale(pts, sx, sy, px, py)[i].y - py == (pts[i].y - py) * sy
  {
  }

  /** Non-zero factors are undone by their reciprocals about the same pivot. */
  lemma ScaleInverse(pts: seq<Point>, sx: real, sy: real, px: real, py: real)
    requires sx != 0.0 && sy != 0.0
    ensures Scale(Scale(pts, sx, sy, px, py), 1.0 / sx, 1.0 / sy, px, py) == pts
  {
    var once := Scale(pts, sx, sy, px, py);
    var twice := Scale(once, 1.0 / sx, 1.0 / sy, px, py);
    forall i | 0 <= i < |pts|
      ensures twice[i] == pts[i]
    {
      MulRecip(pts[i].x - px, sx);
      MulRecip(pts[i].y - py, sy);
    }
  }

  /** Reflecting twice across the same axis is the identity. */
  lemma ReflectInvolution(pts: seq<Point>, axis: real)
    ensures ReflectY(ReflectY(pts, axis), axis) == pts
  {
  }

  /** Reflecting across `a` and then across `b` is a vertical translation by
      `2(b - a)`. */
  lemma ReflectTwiceTranslates(pts: seq<Point>, a: real, b: real)
    ensures ReflectY(ReflectY(pts, a), b) == Translate(pts, 0.0, 2.0 * (b - a))
  {
  }

  /** Points on the axis are fixed by the reflection. */
  lemma ReflectFixesAxis(pts: seq<Point>, axis: real)
    ensures forall i :: 0 <= i < |pts| && pts[i].y == axis ==> ReflectY(pts, axis)[i] == pts[i]
  {
  }
}
