/** The gesture rules of the selection overlay: which mode a pointer-down selects, and how
    one pointer-move step translates or resizes the rectangle in each mode. */
module Gesture {
  import opened Geometry

  /** Radius of a corner handle, in pixels. */
  const HandleRadius: real := 24.0

  /** A pointer grabs a handle when it is at most this far from the corner. */
  const HitRadius: real := HandleRadius * 1.5

  /** Smallest span a resize leaves between a dragged edge and its opposite edge. */
  const MinSize: real := 80.0

  datatype Mode = None | Move | ResizeLT | ResizeRT | ResizeLB | ResizeRB

  /** The corner handles, in the order a pointer-down tries them. */
  const Handles: seq<Mode> := [ResizeLT, ResizeRT, ResizeLB, ResizeRB]

  // Which edges each resize mode drags.
  predicate OwnsLeft(m: Mode) { m == ResizeLT || m == ResizeLB }
  predicate OwnsRight(m: Mode) { m == ResizeRT || m == ResizeRB }
  predicate OwnsTop(m: Mode) { m == ResizeLT || m == ResizeRT }
  predicate OwnsBottom(m: Mode) { m == ResizeLB || m == ResizeRB }

  /** Both spans are at least `MinSize`. */
  predicate MinSized(r: Rect) {
    r.Width() >= MinSize && r.Height() >= MinSize
  }

  function Min(a: real, b: real): real { if a <= b then a else b }

  function Max(a: real, b: real): real { if a >= b then a else b }

  /** `isNear`: the Euclidean distance from (x, y) to (cx, cy) is at most `HitRadius`,
      compared on squares so that no square root is needed. */
  predicate IsNear(x: real, y: real, cx: real, cy: real): (near: bool)
    ensures x == cx && y == cy ==> near
    ensures near ==> -HitRadius <= x - cx <= HitRadius && -HitRadius <= y - cy <= HitRadius
  {
    var dx := x - cx;
    var dy := y - cy;
    dx * dx + dy * dy <= HitRadius * HitRadius
  }

  /** Comparing squares is the same as comparing the distance itself: for the non-negative
      root `dist` of dx² + dy², `IsNear` holds exactly when `dist <= HitRadius`. */
  lemma NearIffDistanceWithinHitRadius(x: real, y: real, cx: real, cy: real, dist: real)
    requires dist >= 0.0
    requires dist * dist == (x - cx) * (x - cx) + (y - cy) * (y - cy)
    ensures IsNear(x, y, cx, cy) <==> dist <= HitRadius
  {
    if dist <= HitRadius {
      assert dist * dist <= HitRadius * dist;
      assert HitRadius * dist <= HitRadius * HitRadius;
    } else {
      assert dist * dist > HitRadius * dist;
      assert HitRadius * dist > HitRadius * HitRadius;
    }
  }

  /** A point near a corner is within `HitRadius` of it along each axis. */
  lemma NearBoundsEachAxis(x: real, y: real, cx: real, cy: real)
    requires IsNear(x, y, cx, cy)
    ensures -HitRadius <= x - cx <= HitRadius
    ensures -HitRadius <= y - cy <= HitRadius
  {
  }

  /** Position of the corner a resize mode drags. */
  function HandleX(r: Rect, m: Mode): real
    requires m in Handles
  {
    if OwnsLeft(m) then r.left else r.right
  }

  function HandleY(r: Rect, m: Mode): real
    requires m in Handles
  {
    if OwnsTop(m) then r.top else r.bottom
  }

  predicate NearHandle(r: Rect, x: real, y: real, m: Mode)
    requires m in Handles
  {
    IsNear(x, y, HandleX(r, m), HandleY(r, m))
  }

  predicate NearAnyHandle(r: Rect, x: real, y: real) {
    exists i :: 0 <= i < |Handles| && NearHandle(r, x, y, Handles[i])
  }

  /** Position of a resize mode in the order `Handles`. */
  function HandleIndex(m: Mode): (i: nat)
    requires m in Handles
    ensures i < |Handles| && Handles[i] == m
  {
    if m == ResizeLT then 0 else if m == ResizeRT then 1 else if m == ResizeLB then 2 else 3
  }

  /** The mode a pointer-down at (x, y) selects: the first handle in `Handles` that is near,
      otherwise `Move` when the rectangle contains the point, otherwise `None`. */
  function PickMode(r: Rect, x: real, y: real): (m: Mode)
    ensures m in Handles <==> NearAnyHandle(r, x, y)
    ensures m in Handles ==>
              NearHandle(r, x, y, m) &&
              forall j :: 0 <= j < HandleIndex(m) ==> !NearHandle(r, x, y, Handles[j])
    ensures m == Move <==> !NearAnyHandle(r, x, y) && Contains(r, x, y)
    ensures m == None <==> !NearAnyHandle(r, x, y) && !Contains(r, x, y)
  {
    if IsNear(x, y, r.left, r.top) then ResizeLT
    else if IsNear(x, y, r.right, r.top) then ResizeRT
    else if IsNear(x, y, r.left, r.bottom) then ResizeLB
    else if IsNear(x, y, r.right, r.bottom) then ResizeRB
    else if Contains(r, x, y) then Move
    else None
  }

  /** A corner lies on the rectangle's closed left and top edges, so the inside test accepts
      the left-top corner; the handle test comes first and still grabs the handle there. */
  lemma CornerGrabsHandleBeforeInsideTest(r: Rect)
    requires r.Width() > 0.0 && r.Height() > 0.0
    ensures Contains(r, r.left, r.top)
    ensures PickMode(r, r.left, r.top) == ResizeLT
  {
  }

  /** On a rectangle whose spans are at least `MinSize`, the hit areas of the four handles do
      not overlap, so a pointer-down near a handle grabs that very handle whatever the order. */
  lemma NearHandleSelectsIt(r: Rect, x: real, y: real, m: Mode)
    requires MinSized(r)
    requires m in Handles && NearHandle(r, x, y, m)
    ensures PickMode(r, x, y) == m
  {
    var p := PickMode(r, x, y);
    NearBoundsEachAxis(x, y, HandleX(r, m), HandleY(r, m));
    assert p in Handles;
    NearBoundsEachAxis(x, y, HandleX(r, p), HandleY(r, p));
  }

  /** One step of a translation by (dx, dy): the rectangle is offset, then shifted back along
      each axis by the amount it overflows the view on that axis (the left or top overflow is
      corrected first). */
  function MoveStep(r: Rect, dx: real, dy: real, w: int, h: int): (t: Rect)
    ensures t.Width() == r.Width() && t.Height() == r.Height()
    ensures 0.0 <= r.Width() <= w as real ==> 0.0 <= t.left && t.right <= w as real
    ensures 0.0 <= r.Height() <= h as real ==> 0.0 <= t.top && t.bottom <= h as real
    ensures 0.0 <= r.left + dx && r.right + dx <= w as real ==> t.left == r.left + dx
    ensures 0.0 <= r.top + dy && r.bottom + dy <= h as real ==> t.top == r.top + dy
    // an axis that overflows ends flush against the edge it crossed (left or top first)
    ensures r.left + dx < 0.0 ==> t.left == 0.0
    ensures 0.0 <= r.left + dx && r.right + dx > w as real ==> t.right == w as real
    ensures r.top + dy < 0.0 ==> t.top == 0.0
    ensures 0.0 <= r.top + dy && r.bottom + dy > h as real ==> t.bottom == h as real
  {
    var moved := Translate(r, dx, dy);
    var fixX :=
      if moved.left < 0.0 then -moved.left
      else if moved.right > w as real then w as real - moved.right
      else 0.0;
    var fixY :=
      if moved.top < 0.0 then -moved.top
      else if moved.bottom > h as real then h as real - moved.bottom
      else 0.0;
    Translate(moved, fixX, fixY)
  }

  /** A translation keeps a rectangle that lies inside the view inside it. */
  lemma MoveStepKeepsInside(r: Rect, dx: real, dy: real, w: int, h: int)
    requires r.Inside(w, h)
    ensures MoveStep(r, dx, dy, w, h).Inside(w, h)
    ensures MinSized(r) ==> MinSized(MoveStep(r, dx, dy, w, h))
  {
  }

  /** The new position of a left or top edge dragged by `d`: never closer than `MinSize` to
      the opposite edge, then never below 0. */
  function DragLowEdge(edge: real, opposite: real, d: real): (e: real)
    ensures 0.0 <= e
    ensures opposite - MinSize < 0.0 ==> e == 0.0
    ensures 0.0 <= opposite - MinSize ==>
              e <= opposite - MinSize &&
              (e == edge + d ||
               (e == 0.0 && edge + d < 0.0) ||
               (e == opposite - MinSize && edge + d > opposite - MinSize))
  {
    var e := Min(edge + d, opposite - MinSize);
    if e < 0.0 then 0.0 else e
  }

  /** The new position of a right or bottom edge dragged by `d`: never closer than `MinSize`
      to the opposite edge, then never beyond `bound`. */
  function DragHighEdge(edge: real, opposite: real, d: real, bound: real): (e: real)
    ensures e <= bound
    ensures bound < opposite + MinSize ==> e == bound
    ensures opposite + MinSize <= bound ==>
              opposite + MinSize <= e &&
              (e == edge + d ||
               (e == bound && edge + d > bound) ||
               (e == opposite + MinSize && edge + d < opposite + MinSize))
  {
    var e := Max(edge + d, opposite + MinSize);
    if e > bound then bound else e
  }

  /** One step of a corner resize by (dx, dy) in a view of `w` by `h` pixels. */
  function ResizeStep(m: Mode, r: Rect, dx: real, dy: real, w: int, h: int): (t: Rect)
    requires m in Handles
    // the two edges the corner does not own never move
    ensures !OwnsLeft(m) ==> t.left == r.left
    ensures !OwnsRight(m) ==> t.right == r.right
    ensures !OwnsTop(m) ==> t.top == r.top
    ensures !OwnsBottom(m) ==> t.bottom == r.bottom
    // an owned edge follows the pointer exactly while it stays within its allowed range
    ensures OwnsLeft(m) && 0.0 <= r.left + dx <= r.right - MinSize ==> t.left == r.left + dx
    ensures OwnsTop(m) && 0.0 <= r.top + dy <= r.bottom - MinSize ==> t.top == r.top + dy
    ensures OwnsRight(m) && r.left + MinSize <= r.right + dx <= w as real ==> t.right == r.right + dx
    ensures OwnsBottom(m) && r.top + MinSize <= r.bottom + dy <= h as real ==> t.bottom == r.bottom + dy
    // an owned edge stays at least `MinSize` from its opposite edge when the view leaves room
    ensures OwnsLeft(m) && 0.0 <= r.right - MinSize ==> t.left <= r.right - MinSize
    ensures OwnsTop(m) && 0.0 <= r.bottom - MinSize ==> t.top <= r.bottom - MinSize
    ensures OwnsRight(m) && r.left + MinSize <= w as real ==> r.left + MinSize <= t.right
    ensures OwnsBottom(m) && r.top + MinSize <= h as real ==> r.top + MinSize <= t.bottom
    // an owned edge always ends up inside the view
    ensures OwnsLeft(m) ==> 0.0 <= t.left
    ensures OwnsTop(m) ==> 0.0 <= t.top
    ensures OwnsRight(m) ==> t.right <= w as real
    ensures OwnsBottom(m) ==> t.bottom <= h as real
  {
    match m
    case ResizeLT =>
      r.(left := DragLowEdge(r.left, r.right, dx), top := DragLowEdge(r.top, r.bottom, dy))
    case ResizeRT =>
      r.(right := DragHighEdge(r.right, r.left, dx, w as real), top := DragLowEdge(r.top, r.bottom, dy))
    case ResizeLB =>
      r.(left := DragLowEdge(r.left, r.right, dx), bottom := DragHighEdge(r.bottom, r.top, dy, h as real))
    case ResizeRB =>
      r.(right := DragHighEdge(r.right, r.left, dx, w as real), bottom := DragHighEdge(r.bottom, r.top, dy, h as real))
  }

  /** A resize keeps a rectangle that lies inside the view inside it, and keeps both of its
      spans at least `MinSize` when they were before. */
  lemma ResizeStepKeepsInside(m: Mode, r: Rect, dx: real, dy: real, w: int, h: int)
    requires m in Handles
    requires r.Inside(w, h)
    ensures ResizeStep(m, r, dx, dy, w, h).Inside(w, h)
    ensures MinSized(r) ==> MinSized(ResizeStep(m, r, dx, dy, w, h))
  {
  }
}
