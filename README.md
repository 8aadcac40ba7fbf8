# Selection overlay of the camera app, in Dafny

This project models `SelectionView`, the Android view of the camera app that shows a
movable, resizable crop rectangle over a photo. The rectangle is seeded the first time
the view gets a positive width and height, unless it was already set from outside: it is
centred and covers 60% of each dimension. A pointer-down picks
a gesture mode. It grabs one of the four corner handles if the pointer is within 1.5 × the
24-pixel handle radius of it, trying them in the order left-top, right-top, left-bottom,
right-bottom. Otherwise it picks `MOVE` when the rectangle contains the pointer, and
`NONE` when it does not. Each pointer-move then applies the displacement since the last
pointer position:

- `MOVE` translates the rectangle, then shifts it back by the amount it overflows on each
  axis (left or top first), so a rectangle that fits the view ends inside it. A rectangle
  wider or taller than the view (one set from outside, or one seeded before the view
  shrank, since a later size change never reseeds it) still overflows.
- A resize mode drags the two edges of its corner. Each dragged edge is first kept at
  least 80 pixels (`minSize`) from its opposite edge, then clamped to the view; when the
  view leaves no room for both, the clamp wins and the span ends below 80.

Pointer-up and cancel end the gesture. The rectangle can also be read as a copy and set
from outside.

The model has four modules:

- `Geometry` (`geometry.dfy`): the rectangle as a value (`Rect`) and as the mutable
  `RectF` object the view owns.
- `Gesture` (`gesture.dfy`): the constants, `isNear`, the choice of mode, and one
  translate step and one resize step as pure functions.
- `Editor` (`editor.dfy`): the view's state as a value, and one transition per callback.
  `Run` folds a sequence of pointer events.
- `View` (`view.dfy`): the class `SelectionView`. It has the Kotlin fields (`rect`,
  `initialized`, `mode`, `lastX`, `lastY`, plus the laid-out `width`/`height`), and one
  method per callback that updates them in place, edge by edge as the source does. Each
  method is proved to produce the state that the matching `Editor` transition gives.

Main results:

- Every pointer event keeps a rectangle that lies inside the view inside it. It also keeps
  both spans at least `minSize` if they were. Both facts extend to any sequence of events.
- A resize never moves the two edges its corner does not own.
- A translation keeps width and height exactly.
- On a rectangle with both spans at least `minSize`, the four handle hit areas do not
  overlap, so the fixed test order never matters.
- The seeded rectangle of a w × h view has width 0.6w and height 0.6h, and it is centred.
  For 400 × 800 it is (80, 160, 320, 640). It lies inside the view, but it meets the
  minimum size only when 0.6w ≥ 80 and 0.6h ≥ 80.

Assumptions:

- Coordinates are exact reals. The view's `width`/`height` are integers, converted to
  reals where the source compares them with `Float` edges.
- `isNear` compares squared distances. `Gesture.NearIffDistanceWithinHitRadius` proves
  that this agrees with the source's square-root comparison.
- `RectF.contains(x, y)` is a library call whose body is not part of this model. It is
  modelled as Android's documented test: a non-empty rectangle, closed on the left and
  top edges and open on the right and bottom edges. This is an assumption.

## Model

| member | source | states |
|---|---|---|
| `Geometry.Translate` | app/src/main/java/com/example/camera_test/SelectionView.kt:124 | offsetting shifts left and top by exactly (dx, dy) and keeps width and height |
| `Geometry.Contains` | app/src/main/java/com/example/camera_test/SelectionView.kt:115 | Android's half-open inside test: only a non-empty rectangle contains anything; it contains its left-top corner and no point on its right or bottom edge (an assumption, since the library body is not part of the model) |
| `Geometry.RectF.constructor` | app/src/main/java/com/example/camera_test/SelectionView.kt:33 | a new rectangle object holds the given edges |
| `Geometry.RectF.Copy` | app/src/main/java/com/example/camera_test/SelectionView.kt:180 | the copy holds the same edges as its source |
| `Geometry.RectF.Set` | app/src/main/java/com/example/camera_test/SelectionView.kt:60 | the object afterwards holds exactly the four given edges |
| `Geometry.RectF.SetFrom` | app/src/main/java/com/example/camera_test/SelectionView.kt:187 | the object afterwards holds the edges the source rectangle had, even when the two are the same object |
| `Geometry.RectF.Offset` | app/src/main/java/com/example/camera_test/SelectionView.kt:136 | the object afterwards holds its old rectangle translated by (dx, dy) |
| `Gesture.IsNear` | app/src/main/java/com/example/camera_test/SelectionView.kt:95-99 | near means the squared distance to the corner is at most (1.5 × handleRadius)²; the corner itself is near, and a near point is within 36 pixels of it along each axis |
| `Gesture.NearIffDistanceWithinHitRadius` | app/src/main/java/com/example/camera_test/SelectionView.kt:95-99 | for the non-negative root of dx² + dy², the squared test holds exactly when that distance is at most 1.5 × handleRadius |
| `Gesture.NearBoundsEachAxis` | app/src/main/java/com/example/camera_test/SelectionView.kt:95-99 | a point near a corner is within 36 pixels of it along each axis |
| `Gesture.PickMode` | app/src/main/java/com/example/camera_test/SelectionView.kt:110-117 | a resize mode exactly when some handle is near, and then the first near handle in the order LT, RT, LB, RB; `Move` exactly when no handle is near and the rectangle contains the point; `None` exactly when neither |
| `Gesture.CornerGrabsHandleBeforeInsideTest` | app/src/main/java/com/example/camera_test/SelectionView.kt:110-115 | on a non-empty rectangle the left-top corner passes the inside test, yet a pointer-down there grabs the left-top handle, because handles are tried first |
| `Gesture.NearHandleSelectsIt` | app/src/main/java/com/example/camera_test/SelectionView.kt:110-114 | when both spans are at least minSize, a pointer-down near a handle selects that handle |
| `Gesture.MoveStep` | app/src/main/java/com/example/camera_test/SelectionView.kt:123-137 | width and height are unchanged; each axis on which the rectangle fits the view ends inside it; an axis that does not overflow moves by exactly the pointer delta; an axis that overflows ends flush against the edge it crossed (the left or top edge is checked first) |
| `Gesture.MoveStepKeepsInside` | app/src/main/java/com/example/camera_test/SelectionView.kt:123-137 | a rectangle inside the view stays inside after a move step, and keeps the minimum size if it had it |
| `Gesture.DragLowEdge` | app/src/main/java/com/example/camera_test/SelectionView.kt:139-142 | a dragged left or top edge ends at or above 0 and at most minSize short of the opposite edge when there is room for that; it follows the pointer unless one of those bounds stops it; without room it snaps to 0 |
| `Gesture.DragHighEdge` | app/src/main/java/com/example/camera_test/SelectionView.kt:145-147 | a dragged right or bottom edge ends within the view bound and at least minSize beyond the opposite edge when there is room for that; it follows the pointer unless one of those bounds stops it; without room it snaps to the bound |
| `Gesture.ResizeStep` | app/src/main/java/com/example/camera_test/SelectionView.kt:138-161 | corner ownership: the two edges the corner does not own are unchanged; an owned edge follows the pointer while within range, stays at least minSize from its opposite edge when the view leaves room for that, and always ends inside the view |
| `Gesture.ResizeStepKeepsInside` | app/src/main/java/com/example/camera_test/SelectionView.kt:138-161 | a rectangle inside the view stays inside after a resize step, and keeps both spans at least minSize if it had them |
| `Editor.Centered` | app/src/main/java/com/example/camera_test/SelectionView.kt:54-60 | the seeded rectangle has width 0.6w and height 0.6h and is centred (left = w − right, top = h − bottom) |
| `Editor.CenteredExample` | app/src/main/java/com/example/camera_test/SelectionView.kt:52-60 | a 400 × 800 view is seeded with (80, 160, 320, 640) |
| `Editor.CenteredFitsView` | app/src/main/java/com/example/camera_test/SelectionView.kt:52-60 | the seeded rectangle lies inside the view, and meets the minimum size exactly when 0.6w ≥ 80 and 0.6h ≥ 80 |
| `Editor.InitCentered` | app/src/main/java/com/example/camera_test/SelectionView.kt:52-63 | seeding makes the rectangle the centred 60% rectangle of the given size, sets `initialized` and leaves mode and anchor alone |
| `Editor.SizeChanged` | app/src/main/java/com/example/camera_test/SelectionView.kt:45-50 | the rectangle is seeded with the centred rectangle exactly when not yet initialized and both sizes are positive; otherwise the whole state is returned unchanged |
| `Editor.SeededOnlyOnce` | app/src/main/java/com/example/camera_test/SelectionView.kt:45-50 | after a size change with positive sizes, any later size change leaves the state as it is |
| `Editor.SetCrop` | app/src/main/java/com/example/camera_test/SelectionView.kt:186-190 | the rectangle becomes the given one, unvalidated, and `initialized` is set; mode and anchor are untouched |
| `Editor.SetCropSurvivesSizeChange` | app/src/main/java/com/example/camera_test/SelectionView.kt:186-188 | after the setter, no size change reseeds the rectangle |
| `Editor.Down` | app/src/main/java/com/example/camera_test/SelectionView.kt:106-118 | pointer-down sets the anchor to (x, y), picks the mode, and never changes the rectangle |
| `Editor.Drag` | app/src/main/java/com/example/camera_test/SelectionView.kt:119-167 | pointer-move sets the anchor to the pointer in every mode; in `None` it leaves the rectangle unchanged; in `Move` and the resize modes the rectangle becomes the move or resize step by the displacement from the anchor (x − lastX, y − lastY), so a move keeps width and height and a resize keeps the edges its corner does not own |
| `Editor.MovesTelescope` | app/src/main/java/com/example/camera_test/SelectionView.kt:119-137 | two `Move` drags that stay inside the view translate the rectangle by the last pointer position minus the anchor the gesture started from |
| `Editor.Release` | app/src/main/java/com/example/camera_test/SelectionView.kt:168-170 | up/cancel sets the mode to `None` and changes nothing else |
| `Editor.Step` | app/src/main/java/com/example/camera_test/SelectionView.kt:101-173 | down, move, up and cancel take the `Down`, `Drag`, `Release`, `Release` transitions; ignored actions change nothing; no event changes `initialized`; only a pointer-move can change the rectangle |
| `Editor.StepKeepsInside` | app/src/main/java/com/example/camera_test/SelectionView.kt:119-167 | every pointer event keeps a rectangle inside the view inside it, and keeps the minimum size if it held |
| `Editor.RunKeepsInside` | app/src/main/java/com/example/camera_test/SelectionView.kt:101-173 | containment and minimum size hold after any sequence of pointer events if they held before it |
| `Editor.DragWithoutGrabKeepsRect` | app/src/main/java/com/example/camera_test/SelectionView.kt:162-165 | with mode `None`, any sequence of moves leaves the rectangle and the mode unchanged |
| `Editor.DownOutsideEditsNothing` | app/src/main/java/com/example/camera_test/SelectionView.kt:110-165 | a pointer-down outside the selection and away from every handle, followed by any run of moves, leaves the rectangle unchanged |
| `Editor.AnchorFollowsLastMove` | app/src/main/java/com/example/camera_test/SelectionView.kt:164-165 | after a non-empty sequence of moves the anchor is the last pointer position, so deltas are incremental |
| `View.SelectionView.constructor` | app/src/main/java/com/example/camera_test/SelectionView.kt:33-40 | a new view has an all-zero rectangle, mode `None`, anchor (0, 0) and is not initialized |
| `View.SelectionView.OnSizeChanged` | app/src/main/java/com/example/camera_test/SelectionView.kt:45-50 | the view takes the new size, and its state becomes the `SizeChanged` transition of the old state |
| `View.SelectionView.InitCenteredRect` | app/src/main/java/com/example/camera_test/SelectionView.kt:52-63 | the state becomes the `InitCentered` transition for the current size |
| `View.SelectionView.OnTouchEvent` | app/src/main/java/com/example/camera_test/SelectionView.kt:101-173 | every event is consumed, and the state becomes the `Step` transition of the old state for the current size |
| `View.SelectionView.OnDown` | app/src/main/java/com/example/camera_test/SelectionView.kt:106-118 | the state becomes the `Down` transition of the old state |
| `View.SelectionView.OnMove` | app/src/main/java/com/example/camera_test/SelectionView.kt:119-167 | the state becomes the `Drag` transition of the old state |
| `View.SelectionView.MoveRect` | app/src/main/java/com/example/camera_test/SelectionView.kt:123-137 | the rectangle object ends as `MoveStep` of its old value |
| `View.SelectionView.ResizeRect` | app/src/main/java/com/example/camera_test/SelectionView.kt:138-161 | assigning the two owned edges one at a time leaves the rectangle object at `ResizeStep` of its old value |
| `View.SelectionView.GetCropRect` | app/src/main/java/com/example/camera_test/SelectionView.kt:178-181 | returns a newly allocated rectangle equal to the current selection |
| `View.SelectionView.SetCropRect` | app/src/main/java/com/example/camera_test/SelectionView.kt:186-190 | the state becomes the `SetCrop` transition with the given edges; the argument object is left unchanged |
| `View.SetThenGet` | app/src/main/java/com/example/camera_test/SelectionView.kt:178-190 | setting a rectangle and reading it back yields a fresh copy equal to what was set |

## Left out

- Rendering (`onDraw`, `drawHandles`, the `Paint` objects) and the `invalidate()` redraw
  requests. They draw on a canvas and change no state the model keeps.
- `Context`, `AttributeSet` and `MotionEvent`. An event is modelled as a masked action and
  a position. Actions other than down, move, up and cancel are all one `OtherAction`,
  which the view ignores.
- The layout pass itself. `OnSizeChanged` assigns the new `width`/`height` before running
  the callback's logic, as the framework does before calling `onSizeChanged`. The old
  size, which the callback ignores, is not a parameter.
- 32-bit float rounding of the edges, of the `0.6f` and `1.5f` constants and of `sqrt`.
  All arithmetic is exact.
- A crop projection from view coordinates to bitmap pixels, with its display-geometry
  derivation and its `OutsideImage`/`DegenerateDisplay` errors. No such code exists in the
  application: the photo screen saves the whole image unchanged, and the image utilities
  only compress a bitmap they are given. So there is nothing of it to model.
- The rest of the application: camera session binding, permission dialogs, gallery
  intents, history persistence (file I/O and JSON), image compression and MediaStore
  writes, and activity wiring. These are platform glue around the overlay.
