/** The overlay view itself: the fields it updates in place and one method per callback.
    Each method is proved to take the view's state to the one the matching transition of
    `Editor` gives. */
module View {
  import opened Geometry
  import opened Gesture
  import opened Editor

  class SelectionView {
    /** The laid-out size of the view, set by the layout pass. */
    var width: int
    var height: int

    var rect: RectF
    var initialized: bool
    var mode: Mode
    var lastX: real
    var lastY: real

    /** The view's state as a value. */
    function Model(): State
      reads this, rect
    {
      State(rect.Value(), mode, lastX, lastY, initialized)
    }

    constructor ()
      ensures Model() == Initial && width == 0 && height == 0
      ensures fresh(rect)
    {
      width, height := 0, 0;
      rect := new RectF(0.0, 0.0, 0.0, 0.0);
      initialized := false;
      mode := None;
      lastX, lastY := 0.0, 0.0;
    }

    /** The layout pass gives the view its new size `w` by `h`, then calls back. */
    method OnSizeChanged(w: int, h: int)
      modifies this`width, this`height, this`initialized, rect
      ensures width == w && height == h
      ensures Model() == SizeChanged(old(Model()), w, h)
    {
      width, height := w, h;
      if !initialized && w > 0 && h > 0 {
        InitCenteredRect();
      }
    }

    method InitCenteredRect()
      modifies this`initialized, rect
      ensures Model() == InitCentered(old(Model()), width, height)
    {
      var w := width as real;
      var h := height as real;
      var rw := w * 0.6;
      var rh := h * 0.6;
      var left := (w - rw) / 2.0;
      var top := (h - rh) / 2.0;
      rect.Set(left, top, left + rw, top + rh);
      initialized := true;
    }

    /** Handles one pointer event; every event is reported as consumed. */
    method OnTouchEvent(e: Event) returns (handled: bool)
      modifies this`mode, this`lastX, this`lastY, rect
      ensures handled
      ensures Model() == Step(old(Model()), width, height, e)
    {
      match e.action {
        case PointerDown => OnDown(e.x, e.y);
        case PointerMove => OnMove(e.x, e.y);
        case PointerUp => mode := None;
        case PointerCancel => mode := None;
        case OtherAction =>
      }
      handled := true;
    }

    /** `ACTION_DOWN`: anchor the drag at (x, y) and pick the mode. */
    method OnDown(x: real, y: real)
      modifies this`mode, this`lastX, this`lastY
      ensures Model() == Down(old(Model()), x, y)
    {
      lastX := x;
      lastY := y;
      mode := PickMode(rect.Value(), x, y);
    }

    /** `ACTION_MOVE`: edit the selection by the displacement since the anchor, then move
        the anchor to (x, y). */
    method OnMove(x: real, y: real)
      modifies this`lastX, this`lastY, rect
      ensures Model() == Drag(old(Model()), x, y, width, height)
    {
      var dx := x - lastX;
      var dy := y - lastY;
      if mode == Move {
        MoveRect(dx, dy);
      } else if mode != None {
        ResizeRect(dx, dy);
      }
      lastX := x;
      lastY := y;
    }

    /** The `MOVE` branch of a pointer-move: offset, then shift back by the overflow. */
    method MoveRect(dx: real, dy: real)
      modifies rect
      ensures rect.Value() == MoveStep(old(rect.Value()), dx, dy, width, height)
    {
      rect.Offset(dx, dy);
      var dxFix :=
        if rect.left < 0.0 then -rect.left
        else if rect.right > width as real then width as real - rect.right
        else 0.0;
      var dyFix :=
        if rect.top < 0.0 then -rect.top
        else if rect.bottom > height as real then height as real - rect.bottom
        else 0.0;
      rect.Offset(dxFix, dyFix);
    }

    /** The `RESIZE_*` branches of a pointer-move: the two edges of the grabbed corner are
        moved, kept `MinSize` away from their opposite edges, then clamped to the view. */
    method ResizeRect(dx: real, dy: real)
      requires mode in Handles
      modifies rect
      ensures rect.Value() == ResizeStep(mode, old(rect.Value()), dx, dy, width, height)
    {
      match mode {
        case ResizeLT =>
          rect.left := Min(rect.left + dx, rect.right - MinSize);
          rect.top := Min(rect.top + dy, rect.bottom - MinSize);
          if rect.left < 0.0 { rect.left := 0.0; }
          if rect.top < 0.0 { rect.top := 0.0; }
        case ResizeRT =>
          rect.right := Max(rect.right + dx, rect.left + MinSize);
          rect.top := Min(rect.top + dy, rect.bottom - MinSize);
          if rect.right > width as real { rect.right := width as real; }
          if rect.top < 0.0 { rect.top := 0.0; }
        case ResizeLB =>
          rect.left := Min(rect.left + dx, rect.right - MinSize);
          rect.bottom := Max(rect.bottom + dy, rect.top + MinSize);
          if rect.left < 0.0 { rect.left := 0.0; }
          if rect.bottom > height as real { rect.bottom := height as real; }
        case ResizeRB =>
          rect.right := Max(rect.right + dx, rect.left + MinSize);
          rect.bottom := Max(rect.bottom + dy, rect.top + MinSize);
          if rect.right > width as real { rect.right := width as real; }
          if rect.bottom > height as real { rect.bottom := height as real; }
      }
    }

    /** A snapshot of the selection: a new object, so later edits of either side do not
        reach the other. */
    method GetCropRect() returns (c: RectF)
      ensures fresh(c)
      ensures c.Value() == rect.Value()
    {
      c := new RectF.Copy(rect);
    }

    /** Copies the edges of `r` into the selection, unchecked. */
    method SetCropRect(r: RectF)
      modifies this`initialized, rect
      ensures Model() == SetCrop(old(Model()), old(r.Value()))
      ensures r != rect ==> r.Value() == old(r.Value())
    {
      rect.SetFrom(r);
      initialized := true;
    }
  }

  /** Setting the selection and reading it back gives a copy equal to what was set, which
      later edits of the view do not change. */
  method SetThenGet(v: SelectionView, r: RectF) returns (c: RectF)
    modifies v`initialized, v.rect
    ensures fresh(c) && c != v.rect
    ensures c.Value() == old(r.Value())
    ensures v.initialized
  {
    v.SetCropRect(r);
    c := v.GetCropRect();
  }
}
