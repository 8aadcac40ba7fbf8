/** The selection overlay as a pure state machine: the state the view keeps, and one
    transition per callback (size change, pointer event, crop-rectangle setter). The
    class `View.SelectionView` is proved to follow these transitions. */
module Editor {
  import opened Geometry
  import opened Gesture

  /** The masked action of a pointer event; `OtherAction` stands for every action the view
      ignores (secondary pointers, hover, outside touches). */
  datatype Action = PointerDown | PointerMove | PointerUp | PointerCancel | OtherAction

  /** A pointer event, with its position in view coordinates. */
  datatype Event = Event(action: Action, x: real, y: real)

  /** What the view remembers between callbacks: the selection, the gesture mode, the last
      pointer position (the drag anchor) and whether the selection has been placed yet. */
  datatype State = State(rect: Rect, mode: Mode, lastX: real, lastY: real, initialized: bool)

  /** The state of a freshly constructed view. */
  const Initial: State := State(Rect(0.0, 0.0, 0.0, 0.0), None, 0.0, 0.0, false)

  /** The seeded selection of a `w` by `h` view: 60% of each dimension, centred. */
  function Centered(w: int, h: int): (r: Rect)
    ensures r.Width() == 0.6 * w as real && r.Height() == 0.6 * h as real
    ensures r.left == w as real - r.right && r.top == h as real - r.bottom
  {
    var fw := w as real;
    var fh := h as real;
    var rw := fw * 0.6;
    var rh := fh * 0.6;
    var left := (fw - rw) / 2.0;
    var top := (fh - rh) / 2.0;
    Rect(left, top, left + rw, top + rh)
  }

  /** The seeded selection of a 400 by 800 view. */
  lemma CenteredExample()
    ensures Centered(400, 800) == Rect(80.0, 160.0, 320.0, 640.0)
  {
  }

  /** The seeded selection always lies inside the view; it respects the minimum size only
      when 60% of each dimension is at least `MinSize`. */
  lemma CenteredFitsView(w: int, h: int)
    requires w >= 0 && h >= 0
    ensures Centered(w, h).Inside(w, h)
    ensures MinSized(Centered(w, h)) <==> 0.6 * w as real >= MinSize && 0.6 * h as real >= MinSize
  {
  }

  /** `initCenteredRect` on a view of `w` by `h` pixels. */
  function InitCentered(s: State, w: int, h: int): (t: State)
    ensures t.rect == Centered(w, h) && t.initialized
    ensures t.mode == s.mode && t.lastX == s.lastX && t.lastY == s.lastY
  {
    s.(rect := Centered(w, h), initialized := true)
  }

  /** `onSizeChanged`: the selection is seeded only the first time the view gets a
      non-empty size, and only if it was not set before. */
  function SizeChanged(s: State, w: int, h: int): (t: State)
    ensures s.initialized || w <= 0 || h <= 0 ==> t == s
    ensures t.initialized == (s.initialized || (w > 0 && h > 0))
    ensures !s.initialized && w > 0 && h > 0 ==> t.rect == Centered(w, h)
    ensures t.mode == s.mode && t.lastX == s.lastX && t.lastY == s.lastY
  {
    if !s.initialized && w > 0 && h > 0 then InitCentered(s, w, h) else s
  }

  /** Once a size change has seeded the selection, no later size change touches it. */
  lemma SeededOnlyOnce(s: State, w1: int, h1: int, w2: int, h2: int)
    requires w1 > 0 && h1 > 0
    ensures SizeChanged(SizeChanged(s, w1, h1), w2, h2) == SizeChanged(s, w1, h1)
  {
  }

  /** `setCropRect`: takes the rectangle as given, without validation, and marks the
      selection as placed. */
  function SetCrop(s: State, r: Rect): (t: State)
    ensures t.rect == r && t.initialized
    ensures t.mode == s.mode && t.lastX == s.lastX && t.lastY == s.lastY
  {
    s.(rect := r, initialized := true)
  }

  /** After `setCropRect`, no size change reseeds the selection. */
  lemma SetCropSurvivesSizeChange(s: State, r: Rect, w: int, h: int)
    ensures SizeChanged(SetCrop(s, r), w, h).rect == r
  {
  }

  /** Pointer-down: records the anchor and picks the mode; the selection does not move. */
  function Down(s: State, x: real, y: real): (t: State)
    ensures t.rect == s.rect && t.initialized == s.initialized
    ensures t.lastX == x && t.lastY == y
    ensures t.mode == PickMode(s.rect, x, y)
  {
    s.(lastX := x, lastY := y, mode := PickMode(s.rect, x, y))
  }

  /** Pointer-move: edits the selection by the pointer's displacement since the anchor, in
      the current mode, then moves the anchor to the pointer. */
  function Drag(s: State, x: real, y: real, w: int, h: int): (t: State)
    ensures t.lastX == x && t.lastY == y
    ensures t.mode == s.mode && t.initialized == s.initialized
    ensures s.mode == None ==> t.rect == s.rect
    // the edit is by the displacement from the anchor, not by the absolute position
    ensures s.mode == Move ==> t.rect == MoveStep(s.rect, x - s.lastX, y - s.lastY, w, h)
    ensures s.mode in Handles ==>
              t.rect == ResizeStep(s.mode, s.rect, x - s.lastX, y - s.lastY, w, h)
    ensures s.mode == Move ==>
              t.rect.Width() == s.rect.Width() && t.rect.Height() == s.rect.Height()
    ensures s.mode in Handles ==>
              (!OwnsLeft(s.mode) ==> t.rect.left == s.rect.left) &&
              (!OwnsRight(s.mode) ==> t.rect.right == s.rect.right) &&
              (!OwnsTop(s.mode) ==> t.rect.top == s.rect.top) &&
              (!OwnsBottom(s.mode) ==> t.rect.bottom == s.rect.bottom)
  {
    var dx := x - s.lastX;
    var dy := y - s.lastY;
    var r :=
      match s.mode
      case Move => MoveStep(s.rect, dx, dy, w, h)
      case None => s.rect
      case _ => ResizeStep(s.mode, s.rect, dx, dy, w, h);
    s.(rect := r, lastX := x, lastY := y)
  }

  /** Deltas telescope: two `Move` drags that never push the selection out of the view
      translate it by the last pointer position minus the anchor it started from. */
  lemma MovesTelescope(s: State, x1: real, y1: real, x2: real, y2: real, w: int, h: int)
    requires s.mode == Move
    requires Translate(s.rect, x1 - s.lastX, y1 - s.lastY).Inside(w, h)
    requires Translate(s.rect, x2 - s.lastX, y2 - s.lastY).Inside(w, h)
    ensures Drag(Drag(s, x1, y1, w, h), x2, y2, w, h).rect
              == Translate(s.rect, x2 - s.lastX, y2 - s.lastY)
  {
    var t1 := Drag(s, x1, y1, w, h);
    assert t1.rect == Translate(s.rect, x1 - s.lastX, y1 - s.lastY);
  }

  /** Pointer-up or cancel: ends the gesture and changes nothing else. */
  function Release(s: State): (t: State)
    ensures t.mode == None
    ensures t.rect == s.rect && t.lastX == s.lastX && t.lastY == s.lastY
    ensures t.initialized == s.initialized
  {
    s.(mode := None)
  }

  /** `onTouchEvent` on a view of `w` by `h` pixels. */
  function Step(s: State, w: int, h: int, e: Event): (t: State)
    ensures t.initialized == s.initialized
    ensures e.action == PointerDown ==> t == Down(s, e.x, e.y)
    ensures e.action == PointerMove ==> t == Drag(s, e.x, e.y, w, h)
    ensures e.action == PointerUp || e.action == PointerCancel ==> t == Release(s)
    ensures e.action == OtherAction ==> t == s
    ensures e.action != PointerMove ==> t.rect == s.rect
  {
    match e.action
    case PointerDown => Down(s, e.x, e.y)
    case PointerMove => Drag(s, e.x, e.y, w, h)
    case PointerUp => Release(s)
    case PointerCancel => Release(s)
    case OtherAction => s
  }

  /** Every pointer event keeps a selection that lies inside the view inside it, and keeps
      its spans at least `MinSize` when they were. */
  lemma StepKeepsInside(s: State, w: int, h: int, e: Event)
    requires s.rect.Inside(w, h)
    ensures Step(s, w, h, e).rect.Inside(w, h)
    ensures MinSized(s.rect) ==> MinSized(Step(s, w, h, e).rect)
  {
    if e.action == PointerMove {
      var dx, dy := e.x - s.lastX, e.y - s.lastY;
      if s.mode == Move {
        MoveStepKeepsInside(s.rect, dx, dy, w, h);
      } else if s.mode != None {
        ResizeStepKeepsInside(s.mode, s.rect, dx, dy, w, h);
      }
    }
  }

  /** The state after a sequence of pointer events on a view of fixed size. */
  function Run(s: State, w: int, h: int, es: seq<Event>): State
    decreases |es|
  {
    if es == [] then s else Run(Step(s, w, h, es[0]), w, h, es[1..])
  }

  /** Containment and minimum size hold after any sequence of pointer events when they held
      before it. */
  lemma {:induction false} RunKeepsInside(s: State, w: int, h: int, es: seq<Event>)
    requires s.rect.Inside(w, h)
    ensures Run(s, w, h, es).rect.Inside(w, h)
    ensures MinSized(s.rect) ==> MinSized(Run(s, w, h, es).rect)
    decreases |es|
  {
    if es != [] {
      StepKeepsInside(s, w, h, es[0]);
      RunKeepsInside(Step(s, w, h, es[0]), w, h, es[1..]);
    }
  }

  /** In mode `None`, any run of pointer-moves leaves the selection and the mode alone. */
  lemma {:induction false} DragWithoutGrabKeepsRect(s: State, w: int, h: int, es: seq<Event>)
    requires s.mode == None
    requires forall i :: 0 <= i < |es| ==> es[i].action == PointerMove
    ensures Run(s, w, h, es).rect == s.rect
    ensures Run(s, w, h, es).mode == None
    decreases |es|
  {
    if es != [] {
      DragWithoutGrabKeepsRect(Step(s, w, h, es[0]), w, h, es[1..]);
    }
  }

  /** A gesture whose pointer-down lands outside the selection and away from every handle
      edits nothing, however long the pointer then moves. */
  lemma DownOutsideEditsNothing(s: State, x: real, y: real, w: int, h: int, es: seq<Event>)
    requires PickMode(s.rect, x, y) == None
    requires forall i :: 0 <= i < |es| ==> es[i].action == PointerMove
    ensures Run(Down(s, x, y), w, h, es).rect == s.rect
  {
    DragWithoutGrabKeepsRect(Down(s, x, y), w, h, es);
  }

  /** Deltas are incremental: after any non-empty run of moves, the anchor is the last
      pointer position. */
  lemma {:induction false} AnchorFollowsLastMove(s: State, w: int, h: int, es: seq<Event>)
    requires |es| > 0
    requires forall i :: 0 <= i < |es| ==> es[i].action == PointerMove
    ensures Run(s, w, h, es).lastX == es[|es| - 1].x
    ensures Run(s, w, h, es).lastY == es[|es| - 1].y
    decreases |es|
  {
    if |es| > 1 {
      AnchorFollowsLastMove(Step(s, w, h, es[0]), w, h, es[1..]);
    }
  }
}
