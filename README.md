# QuickCapture selection surface, modelled in Dafny

QuickCapture is a macOS screenshot tool. A global hotkey freezes every display into a captured raster. It then covers each display with an overlay on which the user drags out a rectangle, moves or resizes it, and confirms it. Confirming puts the cropped pixels on the clipboard. A floating toolbar can also copy or save the crop, or cancel.

This project models the logic of that interaction:

- **Geometry** (`geometry.dfy`, `selection_rect.dfy`).
  - Points, sizes and `CGRect`s over `real`.
  - `CGRect.intersection` and the half-open `CGRect.contains`.
  - The eight resize handles.
  - The selection stored as two arbitrary points, with its normalized box, its emptiness test (under one unit on a side) and its conversion to pixels.
- **The selection surface of one display** (`selection_view.dfy`).
  - Pure helpers:
    - handle centres;
    - the handle hit test, corners before edges within radius 8;
    - the resize and move/clamp arithmetic;
    - the cursor policy;
    - the pointer-down decision.
  - `SelectionView` is a class with the source's state fields: `selection`, `hasSelection`, `lastClickInSelectionTime`, `dragMode` and the cursor last set.
  - Its pointer and key handlers change those fields. They return the event the surface reports to its delegate: `DidStartNewSelection`, `DidSelect`, `DidConfirm` or `DidCancel`.
- **The session coordinator** (`overlay_controller.dfy`).
  - Pure helpers:
    - the toolbar placement arithmetic;
    - the active-display resolution (pointer, then key window, then display 0);
    - the crop target.
  - `OverlayWindowController` is a class with the source's fields. It has `show`, `dismiss`, the four delegate callbacks, toolbar show/hide, and crop-and-copy, copy and save.
  - The clipboard and the files written are modelled as append-only logs of cropped images.
- **The crop** (`image_cropper.dfy`): the selection is scaled by the display's backing scale factor and intersected with the image bounds. An empty intersection means there is no crop.
- **The session gate** (`app_delegate.dfy`).
  - `AppDelegate.triggerCapture` opens at most one session.
  - It needs screen-recording permission and a non-empty capture.
  - The `onDismiss` closure forgets the session again.

These values come from outside the program, so every method that needs one takes it as a parameter:
- the pointer's global location;
- which overlay windows are key;
- the toolbar's fitting size;
- the permission answer;
- the captured displays;
- the click count, timestamp and double-click interval of a mouse event.

Four behaviours of the code are worth knowing, and the model states them as the code has them:

- **Pointer-up reports every gesture.** It reports `DidSelect` after every gesture that leaves a non-empty box, not only after a new selection. A move or a resize is reported too (`QuickCapture/Overlay/SelectionView.swift:290-292`).
- **Pointer-up discards every empty box.** A box under one unit is discarded, also one produced by a resize. The `else if case .none = dragMode` guard at line 293 runs after `dragMode` was reset at line 288, so it always holds. `Surface.SelectionView.MouseUp` states both behaviours.
- **The toolbar's last-resort position is the bottom margin.** When the toolbar fits neither below nor above the selection, `min(belowY, maxY - height - 8)` always picks the second value, because the below position did not fit (`QuickCapture/Overlay/OverlayWindowController.swift:115-120`). So the toolbar sits at the bottom margin, or at the top margin when it is taller than the space between them. `Overlay.ToolbarY` states this.
- **A collapsed resize leaves the old selection with the coordinator.** When a move or resize ends with a box under one unit, pointer-up discards the box and reports nothing (`QuickCapture/Overlay/SelectionView.swift:293-297`). The coordinator is not told. It keeps its toolbar and its stored selection, so Copy or Save still crops the box recorded before the gesture (`QuickCapture/Overlay/OverlayWindowController.swift:156-161`). `Overlay.OverlayWindowController.Dispatch` states that an input with no event leaves the stored selection, the active index, the toolbar, the windows, the clipboard and the saved files unchanged.

## Model

| member | source | states |
|---|---|---|
| `Geometry.SquaredDistance` | QuickCapture/Overlay/SelectionView.swift:167 | the squared distance that replaces `hypot(...) <= radius` is never negative and is zero from a point to itself |
| `Geometry.Rect.Standardize` | QuickCapture/Utilities/ImageCropper.swift:11-13 | the standardized rectangle covers the same span as the original on each axis, from the smaller to the larger of origin and origin plus size, with a non-negative size; an already standardized rectangle is unchanged |
| `Geometry.Rect.Offset` | QuickCapture/Overlay/SelectionView.swift:265 | `offsetBy` keeps the size and moves the origin by exactly (dx, dy) |
| `Geometry.Intersection` | QuickCapture/Utilities/ImageCropper.swift:11-13 | the intersection, when the rectangles meet, is standardized and lies inside both standardized inputs |
| `Geometry.IntersectionIsCommonPart` | QuickCapture/Utilities/ImageCropper.swift:11-13 | a point is in the intersection if and only if it is in both rectangles |
| `SelectionModel.HandleEnumeration` | QuickCapture/Models/SelectionRect.swift:4-13 | `allCases` lists each of the eight handles exactly once; exactly four are corners, and they are the first four |
| `SelectionModel.SelectionRect.NormalizedRect` | QuickCapture/Models/SelectionRect.swift:31-37 | `rect` has a non-negative size and spans from the componentwise minimum to the componentwise maximum of the two points |
| `SelectionModel.NormalizedRectSymmetric` | QuickCapture/Models/SelectionRect.swift:31-37 | swapping `origin` and `end` leaves `rect` unchanged |
| `SelectionModel.IsEmptyCharacterization` | QuickCapture/Models/SelectionRect.swift:39-41 | `isEmpty` holds if and only if the distance between the points is under one unit on some axis |
| `SelectionModel.DegenerateSelectionIsEmpty` | QuickCapture/Models/SelectionRect.swift:26-41 | a selection whose two points coincide is empty and is the zero-size box at that point |
| `SelectionModel.FromRect` | QuickCapture/Models/SelectionRect.swift:21-24 | `init(rect:)` anchors at the box's minimum corner and ends at its maximum corner |
| `SelectionModel.FromRectRoundTrip` | QuickCapture/Models/SelectionRect.swift:21-37 | for a standardized box r, `SelectionRect(rect: r).rect == r` |
| `SelectionModel.NormalizeRoundTrip` | QuickCapture/Models/SelectionRect.swift:21-37 | rebuilding a selection from its own box keeps the box |
| `SelectionModel.SelectionRect.ImageRect` | QuickCapture/Models/SelectionRect.swift:45-53 | the pixel box's size is the box's size times the scale factor, and is non-negative for a non-negative factor |
| `SelectionModel.ImageRectAtUnitScale` | QuickCapture/Models/SelectionRect.swift:45-53 | at scale 1 the pixel box is the box itself |
| `SelectionModel.ImageRectScalesPoints` | QuickCapture/Models/SelectionRect.swift:45-53 | for a positive factor, scaling the box equals normalizing the scaled points, so x, y, width and height are all multiplied |
| `Surface.HandleCenter` | QuickCapture/Overlay/SelectionView.swift:146-157 | a corner handle sits on a vertex and an edge handle on an edge midpoint; every centre lies on the closed box |
| `Surface.FirstHit` | QuickCapture/Overlay/SelectionView.swift:164-177 | the first handle of the requested kind within the radius, in list order; none if and only if no handle of that kind is hit |
| `Surface.HandleAt` | QuickCapture/Overlay/SelectionView.swift:159-179 | the handle found is within the radius; none if and only if no handle is hit; an edge handle is found only when no corner is hit; and it is the hit handle of its kind that comes first in `allCases` |
| `Surface.FirstHitIsEarliest` | QuickCapture/Overlay/SelectionView.swift:164-177 | the handle the search over `allCases` finds comes no later in `allCases` than any other hit handle of its kind |
| `Surface.FirstHitCovers` | QuickCapture/Overlay/SelectionView.swift:164-177 | the search over `allCases` for one kind of handle finds nothing if and only if no handle of that kind is within the hit radius |
| `Surface.SelectionView.HitTestHandle` | QuickCapture/Overlay/SelectionView.swift:159-179 | the two loops (corners, then edges) return exactly `HandleAt` of the current box, and nothing without a selection |
| `Surface.ResizedRect` | QuickCapture/Overlay/SelectionView.swift:183-201 | the resized box is standardized; on each axis the handle owns an edge of, the box spans from the pointer to the opposite edge, which stays where it was; an edge handle leaves the other axis untouched |
| `Surface.HandleOwnership` | QuickCapture/Overlay/SelectionView.swift:186-195 | a corner owns one edge on each axis, an edge handle one edge on one axis, and no handle owns two opposite edges |
| `Surface.ResizeToOwnCenter` | QuickCapture/Overlay/SelectionView.swift:183-201 | dragging a handle onto its own centre leaves the box unchanged |
| `Surface.ResizeFollowsPointer` | QuickCapture/Overlay/SelectionView.swift:183-201 | without crossing the opposite edge, the dragged handle ends under the pointer on the axes it owns |
| `Surface.ResizeRoundTrip` | QuickCapture/Overlay/SelectionView.swift:183-201 | without crossing, dragging a handle away and back restores the box |
| `Surface.ClampRect` | QuickCapture/Overlay/SelectionView.swift:203-210 | the size is kept; each axis is handled on its own: an axis already inside keeps its position, a box past the maximum edge or wider than the bounds ends on the maximum edge, a box that fits and starts before the minimum edge starts on it; an already contained box is unchanged |
| `Surface.MovedRect` | QuickCapture/Overlay/SelectionView.swift:262-267 | a moved selection keeps its size; on each axis where the offset box stays inside the bounds it is offset by exactly the pointer's travel; a box that fits and crosses the minimum edge lands on it, and one that crosses the maximum edge or is too large lands on that; it lies within the bounds on each axis where it fits |
| `Surface.ClampIdempotent` | QuickCapture/Overlay/SelectionView.swift:203-210 | clamping any box twice is clamping it once |
| `Surface.MoveRoundTrip` | QuickCapture/Overlay/SelectionView.swift:262-267 | moving by a delta and back, with no clamping on the way, restores the box |
| `Surface.CursorForHandle` | QuickCapture/Overlay/SelectionView.swift:335-346 | top-left and bottom-right get the -45 degree diagonal, top-right and bottom-left the +45 degree one, top/bottom handles up-down, left/right handles left-right, each if and only if |
| `Surface.CursorAt` | QuickCapture/Overlay/SelectionView.swift:320-333 | the crosshair without a finalized selection; over a handle, that handle's `CursorForHandle` cursor, and a resize cursor only there; the open hand if and only if inside the box and off every handle |
| `Surface.PressOutcome` | QuickCapture/Overlay/SelectionView.swift:214-250 | confirm if and only if a double click lands inside a finalized selection; a handle hit resizes ahead of moving; a new selection if and only if there is no finalized selection or the press is outside the box and off every handle |
| `Surface.DoubleClickInsideConfirms` | QuickCapture/Overlay/SelectionView.swift:217-225 | a double click inside a finalized selection confirms it, even on a handle |
| `Surface.SelectionView.constructor` | QuickCapture/Overlay/SelectionView.swift:13-28 | a new surface has no selection, no gesture, a zero click time and the crosshair |
| `Surface.SelectionView.MouseDown` | QuickCapture/Overlay/SelectionView.swift:214-250 | a confirm emits `DidConfirm` and changes nothing; a resize or move records the gesture with the current box and the click time when inside; a new selection is (P, P), not finalized, with click time 0, and emits `DidStartNewSelection` |
| `Surface.SelectionView.MouseDragged` | QuickCapture/Overlay/SelectionView.swift:252-275 | with no gesture nothing changes; a new selection's end becomes P; a move shows the original box offset and clamped, with its size kept; a resize shows `ResizedRect` of the original box |
| `Surface.SelectionView.MouseUp` | QuickCapture/Overlay/SelectionView.swift:277-303 | with no gesture nothing changes; otherwise the gesture ends, a non-empty box is finalized and reported with `DidSelect` whatever the gesture was, an empty one is discarded, and the cursor is updated |
| `Surface.SelectionView.MouseMoved` | QuickCapture/Overlay/SelectionView.swift:305-308 | only the cursor changes, to the policy's cursor for the point |
| `Surface.SelectionView.KeyDown` | QuickCapture/Overlay/SelectionView.swift:310-314 | an event is emitted if and only if the key is Escape (53), and then it is `DidCancel` |
| `ImageCropper.ImageBounds` | QuickCapture/Utilities/ImageCropper.swift:11-13 | the image rectangle is standardized and runs from (0, 0) to (image width, image height) |
| `ImageCropper.ClampedPixelRect` | QuickCapture/Utilities/ImageCropper.swift:7-13 | a pixel lies in the clamped rectangle if and only if it lies both in the scaled selection and in the image; the rectangle lies inside the image, and inside the scaled selection for a non-negative factor |
| `ImageCropper.Crop` | QuickCapture/Utilities/ImageCropper.swift:6-17 | no crop if and only if the clamped rectangle is empty; otherwise the crop is cut from the given image to exactly the clamped rectangle, which has a positive size and lies inside both the image and the scaled selection |
| `ImageCropper.CropOfContainedSelection` | QuickCapture/Utilities/ImageCropper.swift:6-17 | a selection whose pixel box is inside the image, with a positive size, is cropped to exactly that box |
| `ImageCropper.CropOutsideImageFails` | QuickCapture/Utilities/ImageCropper.swift:11-15 | a selection wholly beside or beyond the image yields no crop |
| `ImageCropper.DragAndCropScenario` | QuickCapture/Utilities/ImageCropper.swift:6-17 | on a 1000 x 800 capture at scale 1, the drag (100, 100) to (300, 250) is the box (100, 100, 200, 150) and crops to exactly it |
| `Overlay.ToolbarX` | QuickCapture/Overlay/OverlayWindowController.swift:103-108 | an in-range selection edge is kept; a selection left of the left margin puts the toolbar on that margin when it fits; a toolbar past the right margin, or too wide for both margins, sits on the right margin |
| `Overlay.ToolbarY` | QuickCapture/Overlay/OverlayWindowController.swift:110-121 | below the selection when that fits, else above it when that fits, never overlapping it then; otherwise at the bottom margin, or the top margin if the toolbar is taller than the space between them; within both margins when it fits |
| `Overlay.ToolbarFrame` | QuickCapture/Overlay/OverlayWindowController.swift:99-123 | the frame has the fitting size, its origin is `ToolbarX` and `ToolbarY` of the selection's box, and it lies within the margins on each axis where it fits |
| `Overlay.FirstTrue` | QuickCapture/Overlay/OverlayWindowController.swift:135-138 | `firstIndex(where:)`: the first index whose flag holds, none if and only if none does |
| `Overlay.ResolvedActiveIndex` | QuickCapture/Overlay/OverlayWindowController.swift:133-142 | the first display under the pointer wins; with no display under the pointer, the first surface whose window is key; otherwise 0; none if and only if no display was captured and no surface is key |
| `Overlay.TargetIndex` | QuickCapture/Overlay/OverlayWindowController.swift:147-148 | `activeIndex ?? resolvedActiveIndex()`: a stored index wins, and without one the result is exactly the resolved index |
| `Overlay.CropOn` | QuickCapture/Overlay/OverlayWindowController.swift:146-154 | for an index in range the result is `Crop` of that display's image with that display's scale factor; an index out of range gives no crop |
| `Overlay.OverlayWindowController.constructor` | QuickCapture/Overlay/OverlayWindowController.swift:14-17 | a session starts with its captured displays, no windows, surfaces, toolbar, selection or active index |
| `Overlay.OverlayWindowController.Show` | QuickCapture/Overlay/OverlayWindowController.swift:19-40 | one window and one fresh idle surface per captured display, in the same order, appended to the existing ones; nothing else changes |
| `Overlay.OverlayWindowController.Dismiss` | QuickCapture/Overlay/OverlayWindowController.swift:42-55 | the toolbar, windows, surfaces, images, selection and active index are all gone, and the host is notified |
| `Overlay.OverlayWindowController.HideToolbar` | QuickCapture/Overlay/OverlayWindowController.swift:128-131 | there is no toolbar afterwards |
| `Overlay.OverlayWindowController.ShowToolbar` | QuickCapture/Overlay/OverlayWindowController.swift:83-126 | the old toolbar goes; a new one is placed at `ToolbarFrame` on the target surface only when the target index names a surface |
| `Overlay.OverlayWindowController.CropAndCopy` | QuickCapture/Overlay/OverlayWindowController.swift:146-154 | the clipboard gains the crop on the target display when it succeeds, and nothing otherwise |
| `Overlay.OverlayWindowController.SelectionViewDidSelect` | QuickCapture/Overlay/OverlayWindowController.swift:59-66 | the selection is remembered, the active index is freshly resolved, and the toolbar is shown on that surface |
| `Overlay.OverlayWindowController.SelectionViewDidConfirm` | QuickCapture/Overlay/OverlayWindowController.swift:68-71 | the crop of the confirmed box on the target display is copied, then the session is torn down |
| `Overlay.OverlayWindowController.SelectionViewDidCancel` | QuickCapture/Overlay/OverlayWindowController.swift:73-75 | the session is torn down and nothing is written |
| `Overlay.OverlayWindowController.SelectionViewDidStartNewSelection` | QuickCapture/Overlay/OverlayWindowController.swift:77-79 | the toolbar disappears |
| `Overlay.OverlayWindowController.CopySelection` | QuickCapture/Overlay/OverlayWindowController.swift:156-161 | the current selection's crop, if any succeeds, goes to the clipboard; the session always ends |
| `Overlay.OverlayWindowController.SaveSelection` | QuickCapture/Overlay/OverlayWindowController.swift:163-175 | a successful crop goes to both the clipboard and a file; the session always ends, also without a selection or crop |
| `Overlay.OverlayWindowController.Route` | QuickCapture/Overlay/OverlayWindowController.swift:57-79 | each surface event reaches its callback: start-new hides the toolbar; select records the selection, resolves the active display and shows the toolbar at `ToolbarFrame` on that surface; confirm copies the target crop and tears everything down; cancel tears everything down; no event changes nothing |
| `Overlay.OverlayWindowController.Dispatch` | QuickCapture/Overlay/OverlayWindowController.swift:28-32 | a press emits the event `PressOutcome` decides, and a new selection leaves the surface at (P, P) not finalized; a drag or move emits nothing and a move updates the cursor; a release emits only `DidSelect` of the surface's finalized box; Escape cancels and other keys are ignored; select records, resolves and shows the toolbar on the active surface, start-new hides it, confirm and cancel tear the session down; only a confirm writes, appending the crop on the target display to the clipboard, and nothing is saved; an input with no event leaves the stored selection, active index, windows, screen images and toolbar as they were |
| `App.AppDelegate.constructor` | QuickCapture/App/AppDelegate.swift:3-5 | the application starts with no session |
| `App.AppDelegate.TriggerCapture` | QuickCapture/App/AppDelegate.swift:14-36 | nothing while a session is open; without permission it only requests it; an empty capture opens nothing; otherwise exactly one new session is stored and shown, with one window and one idle surface per captured display, no toolbar, no stored selection and no active index |
| `App.AppDelegate.OnDismiss` | QuickCapture/App/AppDelegate.swift:31-33 | the stored session is forgotten, so the next trigger can open one |
| `App.AppDelegate.Deliver` | QuickCapture/App/AppDelegate.swift:30-35 | when a surface's input ends the session (confirm or Escape) the host forgets it; with no event, a select or a start-new the session stays |
| `App.AppDelegate.Press` | QuickCapture/Overlay/OverlayWindowController.swift:92-96 | every toolbar button ends the session; Cancel writes nothing; Copy adds the current selection's crop on the target display, if any, to the clipboard and writes no file; Save adds that same crop to both the clipboard and the files |

## Left out

- Rendering is not modelled. This covers `draw`, the size label, the handle squares and the cursor images: they are drawing calls into Core Graphics and AppKit.
- `NSCursor` push, pop and set are not modelled as calls. The surface records the cursor it last set as a `Cursor` value.
- Window plumbing is not modelled: ordering windows front, making them key, first-responder changes and app activation. The model keeps one `OverlayWindow` value per display.
- Floating point is not modelled. `CGFloat` and `TimeInterval` are `real`, so there is no rounding, NaN or infinity. `hypot(dx, dy) <= 8` is written as a squared-distance comparison.
- `Geometry.Rect`: `minX`, `maxX` and the other edges are the origin and the origin plus the size. That matches Core Graphics only for standardized rectangles. Every rectangle the model builds is standardized, except the `Rect.Standardize` argument inside `Intersection`, which handles the general case.
- `SelectionModel.SelectionRect.ImageRect`: its own contract states only the scaled size. The scaled origin is stated by `ImageRectScalesPoints` (positive factors) and `ImageRectAtUnitScale`.
- `Geometry.SquaredDistance`: it states zero distance from a point to itself, not the converse.
- `cropping(to:)` is represented by the crop rectangle it receives. Its rounding to whole pixels and its failure on a valid rectangle are not modelled.
- PNG/TIFF encoding, the pasteboard and the file system are not modelled. Clipboard writes and file saves are logs of the cropped images.
- The screen-recording permission check, its request dialog, the capture of the displays and the hotkey registration are not modelled; their results are parameters. The log line for an empty capture is left out.
- `CaptureState` is not part of this model; no modelled file uses it.
- Concurrency is not modelled: input is delivered one event at a time on the main thread.
- The weak delegate and `onDismiss` references are not modelled as references. A surface returns its event and the coordinator routes it at once. The host reads the coordinator's `dismissNotified` flag where the closure would have cleared the stored session.
