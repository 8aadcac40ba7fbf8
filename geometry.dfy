/** Rectangles of the selection overlay, in view coordinates.

    `Rect` is the value of an Android `RectF`; `RectF` is the mutable object itself,
    with the few operations the overlay uses (set, copy, offset, edge assignment).
    Coordinates are exact reals: the rounding of 32-bit floats is not modelled. */
module Geometry {

  datatype Rect = Rect(left: real, top: real, right: real, bottom: real) {

    function Width(): real { right - left }

    function Height(): real { bottom - top }

    /** All four edges lie within a view of `w` by `h` pixels, and the rectangle is not inverted. */
    predicate Inside(w: int, h: int) {
      0.0 <= left <= right <= w as real && 0.0 <= top <= bottom <= h as real
    }
  }

  /** The rectangle shifted by (dx, dy), as `RectF.offset` does. */
  function Translate(r: Rect, dx: real, dy: real): (t: Rect)
    ensures t.Width() == r.Width() && t.Height() == r.Height()
    ensures t.left - r.left == dx && t.top - r.top == dy
  {
    Rect(r.left + dx, r.top + dy, r.right + dx, r.bottom + dy)
  }

  /** `RectF.contains(x, y)`: a non-empty rectangle, closed on its left and top edges and
      open on its right and bottom edges. */
  predicate Contains(r: Rect, x: real, y: real): (inside: bool)
    ensures inside ==> r.Width() > 0.0 && r.Height() > 0.0
    ensures x == r.left && y == r.top ==> (inside <==> r.Width() > 0.0 && r.Height() > 0.0)
    ensures x == r.right || y == r.bottom ==> !inside
  {
    r.left < r.right && r.top < r.bottom &&
    r.left <= x < r.right && r.top <= y < r.bottom
  }

  /** The mutable rectangle object the view owns. */
  class RectF {
    var left: real
    var top: real
    var right: real
    var bottom: real

    function Value(): Rect
      reads this
    {
      Rect(left, top, right, bottom)
    }

    constructor (l: real, t: real, r: real, b: real)
      ensures Value() == Rect(l, t, r, b)
    {
      left, top, right, bottom := l, t, r, b;
    }

    /** `RectF(src)`: a new object holding the same edges as `src`. */
    constructor Copy(src: RectF)
      ensures Value() == src.Value()
    {
      left, top, right, bottom := src.left, src.top, src.right, src.bottom;
    }

    /** `set(l, t, r, b)`. */
    method Set(l: real, t: real, r: real, b: real)
      modifies this
      ensures Value() == Rect(l, t, r, b)
    {
      left, top, right, bottom := l, t, r, b;
    }

    /** `set(src)`: copies the edges of `src`, which may be this very object. */
    method SetFrom(src: RectF)
      modifies this
      ensures Value() == old(src.Value())
    {
      var l, t, r, b := src.left, src.top, src.right, src.bottom;
      left, top, right, bottom := l, t, r, b;
    }

    /** `offset(dx, dy)`. */
    method Offset(dx: real, dy: real)
      modifies this
      ensures Value() == Translate(old(Value()), dx, dy)
    {
      left, top, right, bottom := left + dx, top + dy, right + dx, bottom + dy;
    }
  }
}
