/**
 * The interactive selection surface of one display: the handle geometry,
 * the resize and move arithmetic, the cursor policy, and the pointer/key
 * state machine that turns raw input into selection events.
 */
module Surface {
  import opened Wrappers
  import opened Geometry
  import opened SelectionModel

  /** `Constants.handleHitRadius` */
  const HandleHitRadius: real := 8.0

  /** The virtual key code of Escape. */
  const EscapeKeyCode: int := 53

  /** The gesture in progress while a pointer button is down. */
  datatype DragMode =
    | NotDragging
    | NewSelection
    | MoveSelection(startPoint: Point, originalRect: Rect)
    | ResizeSelection(handle: ResizeHandle, originalRect: Rect)

  /** What a surface reports to its delegate, the session coordinator. */
  datatype SurfaceEvent =
    | DidStartNewSelection
    | DidSelect(rect: SelectionRect)
    | DidConfirm(rect: SelectionRect)
    | DidCancel

  /** The cursors the surface sets; the two diagonals are the -45 and +45 degree arrows. */
  datatype Cursor =
    | Crosshair
    | OpenHand
    | ClosedHand
    | DiagonalTopLeftBottomRight
    | DiagonalTopRightBottomLeft
    | ResizeUpDown
    | ResizeLeftRight

  // ---------------------------------------------------------------------------
  // Handle geometry

  /** Where a handle sits on a box: a vertex for a corner, an edge midpoint otherwise. */
  function HandleCenter(h: ResizeHandle, r: Rect): (c: Point)
    ensures r.Standardized() ==> r.MinX() <= c.x <= r.MaxX() && r.MinY() <= c.y <= r.MaxY()
    ensures h.IsCorner() ==> (c.x == r.MinX() || c.x == r.MaxX()) && (c.y == r.MinY() || c.y == r.MaxY())
    ensures !h.IsCorner() ==>
              || (c.x == r.MidX() && (c.y == r.MinY() || c.y == r.MaxY()))
              || (c.y == r.MidY() && (c.x == r.MinX() || c.x == r.MaxX()))
  {
    match h
    case TopLeft => Point(r.MinX(), r.MinY())
    case TopRight => Point(r.MaxX(), r.MinY())
    case BottomLeft => Point(r.MinX(), r.MaxY())
    case BottomRight => Point(r.MaxX(), r.MaxY())
    case TopMiddle => Point(r.MidX(), r.MinY())
    case BottomMiddle => Point(r.MidX(), r.MaxY())
    case LeftMiddle => Point(r.MinX(), r.MidY())
    case RightMiddle => Point(r.MaxX(), r.MidY())
  }

  /** The point is within the hit radius of the handle's center. */
  predicate Hits(h: ResizeHandle, r: Rect, p: Point) {
    SquaredDistance(p, HandleCenter(h, r)) <= HandleHitRadius * HandleHitRadius
  }

  /** The first handle of `hs` of the requested kind (corner or edge) that the point hits. */
  function FirstHit(hs: seq<ResizeHandle>, corners: bool, r: Rect, p: Point): (res: Option<ResizeHandle>)
    ensures res.Some? ==> res.value.IsCorner() == corners && Hits(res.value, r, p)
    ensures res.Some? ==> exists k :: 0 <= k < |hs| && hs[k] == res.value &&
                                      forall j :: 0 <= j < k && hs[j].IsCorner() == corners ==> !Hits(hs[j], r, p)
    ensures res.None? <==> forall k :: 0 <= k < |hs| && hs[k].IsCorner() == corners ==> !Hits(hs[k], r, p)
  {
    if hs == [] then None
    else if hs[0].IsCorner() == corners && Hits(hs[0], r, p) then Some(hs[0])
    else
      var rest := FirstHit(hs[1..], corners, r, p);
      assert forall k :: 1 <= k < |hs| ==> hs[k] == hs[1..][k - 1];
      rest
  }

  /**
   * The handle under the point: corners are tested before edges, each in
   * `allCases` order; None when no handle is within the hit radius.
   */
  function HandleAt(r: Rect, p: Point): (res: Option<ResizeHandle>)
    ensures res.Some? ==> Hits(res.value, r, p)
    ensures res.None? <==> forall h: ResizeHandle :: !Hits(h, r, p)
    ensures res.Some? && !res.value.IsCorner() ==> forall h: ResizeHandle :: h.IsCorner() ==> !Hits(h, r, p)
    ensures res.Some? ==> forall h: ResizeHandle :: h.IsCorner() == res.value.IsCorner() && Hits(h, r, p) ==>
                            HandleIndex(res.value) <= HandleIndex(h)
  {
    var corner := FirstHit(AllHandles, true, r, p);
    FirstHitCovers(true, r, p);
    FirstHitCovers(false, r, p);
    FirstHitIsEarliest(true, r, p);
    FirstHitIsEarliest(false, r, p);
    if corner.Some? then corner else FirstHit(AllHandles, false, r, p)
  }

  /** Scanning `allCases` for a kind finds nothing exactly when no handle of that kind is hit. */
  lemma FirstHitCovers(corners: bool, r: Rect, p: Point)
    ensures FirstHit(AllHandles, corners, r, p).None? <==>
              forall h: ResizeHandle :: h.IsCorner() == corners ==> !Hits(h, r, p)
  {
    var res := FirstHit(AllHandles, corners, r, p);
    if res.None? {
      forall h: ResizeHandle | h.IsCorner() == corners ensures !Hits(h, r, p) {
        var k := HandleIndex(h);
        assert AllHandles[k].IsCorner() == corners;
      }
    }
  }

  /** The handle FirstHit finds in `allCases` comes no later than any other hit handle of its kind. */
  lemma FirstHitIsEarliest(corners: bool, r: Rect, p: Point)
    ensures var res := FirstHit(AllHandles, corners, r, p);
            res.Some? ==> forall h: ResizeHandle :: h.IsCorner() == corners && Hits(h, r, p) ==>
                            HandleIndex(res.value) <= HandleIndex(h)
  {
  }

  // ---------------------------------------------------------------------------
  // Resize and move arithmetic

  predicate MovesMinX(h: ResizeHandle) { h == TopLeft || h == BottomLeft || h == LeftMiddle }
  predicate MovesMaxX(h: ResizeHandle) { h == TopRight || h == BottomRight || h == RightMiddle }
  predicate MovesMinY(h: ResizeHandle) { h == TopLeft || h == TopRight || h == TopMiddle }
  predicate MovesMaxY(h: ResizeHandle) { h == BottomLeft || h == BottomRight || h == BottomMiddle }

  /**
   * The box after dragging handle `h` to `p`: the edges the handle owns take
   * p's coordinates, then the box is renormalized so that dragging past the
   * opposite edge flips it instead of giving it a negative size.
   */
  function ResizedRect(r: Rect, h: ResizeHandle, p: Point): (res: Rect)
    ensures res.Standardized()
    ensures r.Standardized() && MovesMinX(h) ==> res.MinX() == Min(p.x, r.MaxX()) && res.MaxX() == Max(p.x, r.MaxX())
    ensures r.Standardized() && MovesMaxX(h) ==> res.MinX() == Min(r.MinX(), p.x) && res.MaxX() == Max(r.MinX(), p.x)
    ensures r.Standardized() && MovesMinY(h) ==> res.MinY() == Min(p.y, r.MaxY()) && res.MaxY() == Max(p.y, r.MaxY())
    ensures r.Standardized() && MovesMaxY(h) ==> res.MinY() == Min(r.MinY(), p.y) && res.MaxY() == Max(r.MinY(), p.y)
    ensures r.Standardized() && !MovesMinX(h) && !MovesMaxX(h) ==> res.x == r.x && res.width == r.width
    ensures r.Standardized() && !MovesMinY(h) && !MovesMaxY(h) ==> res.y == r.y && res.height == r.height
  {
    var minX := if MovesMinX(h) then p.x else r.MinX();
    var maxX := if MovesMaxX(h) then p.x else r.MaxX();
    var minY := if MovesMinY(h) then p.y else r.MinY();
    var maxY := if MovesMaxY(h) then p.y else r.MaxY();
    var x1, x2 := Min(minX, maxX), Max(minX, maxX);
    var y1, y2 := Min(minY, maxY), Max(minY, maxY);
    Rect(x1, y1, x2 - x1, y2 - y1)
  }

  /** The drag does not cross the edge opposite the handle. */
  predicate NoFlip(r: Rect, h: ResizeHandle, p: Point) {
    (MovesMinX(h) ==> p.x <= r.MaxX()) && (MovesMaxX(h) ==> r.MinX() <= p.x) &&
    (MovesMinY(h) ==> p.y <= r.MaxY()) && (MovesMaxY(h) ==> r.MinY() <= p.y)
  }

  /** Every handle owns exactly the edges its name says: corners two, edge handles one. */
  lemma HandleOwnership(h: ResizeHandle)
    ensures h.IsCorner() <==> (MovesMinX(h) || MovesMaxX(h)) && (MovesMinY(h) || MovesMaxY(h))
    ensures !(MovesMinX(h) && MovesMaxX(h)) && !(MovesMinY(h) && MovesMaxY(h))
    ensures MovesMinX(h) || MovesMaxX(h) || MovesMinY(h) || MovesMaxY(h)
  {
  }

  /** Dragging a handle to where it already is leaves the box as it was. */
  lemma ResizeToOwnCenter(r: Rect, h: ResizeHandle)
    requires r.Standardized()
    ensures ResizedRect(r, h, HandleCenter(h, r)) == r
  {
  }

  /**
   * Without a flip, the dragged handle ends up under the pointer: both
   * coordinates for a corner, the one it owns for an edge handle.
   */
  lemma ResizeFollowsPointer(r: Rect, h: ResizeHandle, p: Point)
    requires r.Standardized() && NoFlip(r, h, p)
    ensures var c := HandleCenter(h, ResizedRect(r, h, p));
            (MovesMinX(h) || MovesMaxX(h) ==> c.x == p.x) && (MovesMinY(h) || MovesMaxY(h) ==> c.y == p.y)
  {
  }

  /** Without a flip, dragging the handle back to its original place restores the box. */
  lemma ResizeRoundTrip(r: Rect, h: ResizeHandle, p: Point)
    requires r.Standardized() && NoFlip(r, h, p)
    ensures ResizedRect(ResizedRect(r, h, p), h, HandleCenter(h, r)) == r
  {
  }

  /**
   * The translated box pushed back into `bounds` one axis at a time: first
   * the minimum edge, then the maximum edge, which wins when the box is
   * larger than the bounds.
   */
  function ClampRect(r: Rect, bounds: Rect): (res: Rect)
    ensures res.width == r.width && res.height == r.height
    ensures res.MaxX() <= bounds.MaxX() || (r.MaxX() <= bounds.MaxX() && res.x == r.x)
    ensures res.MaxY() <= bounds.MaxY() || (r.MaxY() <= bounds.MaxY() && res.y == r.y)
    ensures bounds.MinX() <= r.MinX() && r.MaxX() <= bounds.MaxX() ==> res.x == r.x
    ensures bounds.MinY() <= r.MinY() && r.MaxY() <= bounds.MaxY() ==> res.y == r.y
    ensures r.MaxX() > bounds.MaxX() || r.width > bounds.width ==> res.MaxX() == bounds.MaxX()
    ensures r.MaxY() > bounds.MaxY() || r.height > bounds.height ==> res.MaxY() == bounds.MaxY()
    ensures r.MinX() < bounds.MinX() && r.width <= bounds.width ==> res.MinX() == bounds.MinX()
    ensures r.MinY() < bounds.MinY() && r.height <= bounds.height ==> res.MinY() == bounds.MinY()
    ensures r.width <= bounds.width ==> bounds.MinX() <= res.MinX() && res.MaxX() <= bounds.MaxX()
    ensures r.height <= bounds.height ==> bounds.MinY() <= res.MinY() && res.MaxY() <= bounds.MaxY()
    ensures r.Inside(bounds) ==> res == r
  {
    var x1 := if r.MinX() < bounds.MinX() then bounds.MinX() else r.x;
    var y1 := if r.MinY() < bounds.MinY() then bounds.MinY() else r.y;
    var x2 := if x1 + r.width > bounds.MaxX() then bounds.MaxX() - r.width else x1;
    var y2 := if y1 + r.height > bounds.MaxY() then bounds.MaxY() - r.height else y1;
    Rect(x2, y2, r.width, r.height)
  }

  /** The box a move gesture shows: the original box offset by the pointer's travel, then clamped. */
  function MovedRect(original: Rect, start: Point, p: Point, bounds: Rect): (res: Rect)
    ensures res.width == original.width && res.height == original.height
    ensures original.Offset(p.x - start.x, p.y - start.y).Inside(bounds) ==> res == original.Offset(p.x - start.x, p.y - start.y)
    ensures bounds.MinX() <= original.MinX() + (p.x - start.x) && original.MaxX() + (p.x - start.x) <= bounds.MaxX()
            ==> res.MinX() == original.MinX() + (p.x - start.x)
    ensures bounds.MinY() <= original.MinY() + (p.y - start.y) && original.MaxY() + (p.y - start.y) <= bounds.MaxY()
            ==> res.MinY() == original.MinY() + (p.y - start.y)
    ensures original.width <= bounds.width ==> bounds.MinX() <= res.MinX() && res.MaxX() <= bounds.MaxX()
    ensures original.height <= bounds.height ==> bounds.MinY() <= res.MinY() && res.MaxY() <= bounds.MaxY()
    ensures original.MinX() + (p.x - start.x) < bounds.MinX() && original.width <= bounds.width
            ==> res.MinX() == bounds.MinX()
    ensures original.MaxX() + (p.x - start.x) > bounds.MaxX() || original.width > bounds.width
            ==> res.MaxX() == bounds.MaxX()
    ensures original.MinY() + (p.y - start.y) < bounds.MinY() && original.height <= bounds.height
            ==> res.MinY() == bounds.MinY()
    ensures original.MaxY() + (p.y - start.y) > bounds.MaxY() || original.height > bounds.height
            ==> res.MaxY() == bounds.MaxY()
  {
    ClampRect(original.Offset(p.x - start.x, p.y - start.y), bounds)
  }

  /** Clamping is idempotent. */
  lemma ClampIdempotent(r: Rect, bounds: Rect)
    ensures ClampRect(ClampRect(r, bounds), bounds) == ClampRect(r, bounds)
  {
  }

  /**
   * Moving by (dx, dy) and then by (-dx, -dy), with no clamping triggered on
   * the way, restores the original box.
   */
  lemma MoveRoundTrip(original: Rect, start: Point, p: Point, bounds: Rect)
    requires original.Inside(bounds)
    requires original.Offset(p.x - start.x, p.y - start.y).Inside(bounds)
    ensures MovedRect(MovedRect(original, start, p, bounds), p, start, bounds) == original
  {
  }

  // ---------------------------------------------------------------------------
  // Cursor policy

  /** The resize cursor of a handle: diagonal arrows for corners, axis arrows for edges. */
  function CursorForHandle(h: ResizeHandle): (c: Cursor)
    ensures h.IsCorner() <==> c == DiagonalTopLeftBottomRight || c == DiagonalTopRightBottomLeft
    ensures c == DiagonalTopLeftBottomRight <==> (MovesMinX(h) && MovesMinY(h)) || (MovesMaxX(h) && MovesMaxY(h))
    ensures c == DiagonalTopRightBottomLeft <==> (MovesMaxX(h) && MovesMinY(h)) || (MovesMinX(h) && MovesMaxY(h))
    ensures c == ResizeUpDown <==> !h.IsCorner() && (MovesMinY(h) || MovesMaxY(h))
    ensures c == ResizeLeftRight <==> !h.IsCorner() && (MovesMinX(h) || MovesMaxX(h))
  {
    match h
    case TopLeft | BottomRight => DiagonalTopLeftBottomRight
    case TopRight | BottomLeft => DiagonalTopRightBottomLeft
    case TopMiddle | BottomMiddle => ResizeUpDown
    case LeftMiddle | RightMiddle => ResizeLeftRight
  }

  /** A cursor that is one of the handle resize cursors. */
  predicate IsResizeCursor(c: Cursor) {
    c == DiagonalTopLeftBottomRight || c == DiagonalTopRightBottomLeft || c == ResizeUpDown || c == ResizeLeftRight
  }

  /**
   * The cursor shown over a point: the crosshair unless a finalized selection
   * exists; over it, a resize cursor on a handle, the open hand inside.
   */
  function CursorAt(hasSelection: bool, selection: Option<SelectionRect>, p: Point): (c: Cursor)
    ensures !(hasSelection && selection.Some?) ==> c == Crosshair
    ensures IsResizeCursor(c) <==> hasSelection && selection.Some? && HandleAt(selection.value.NormalizedRect(), p).Some?
    ensures hasSelection && selection.Some? && HandleAt(selection.value.NormalizedRect(), p).Some? ==>
              c == CursorForHandle(HandleAt(selection.value.NormalizedRect(), p).value)
    ensures c == OpenHand <==>
              && InsideFinalized(hasSelection, selection, p)
              && HandleAt(selection.value.NormalizedRect(), p).None?
    ensures c == Crosshair || c == OpenHand || IsResizeCursor(c)
  {
    if !(hasSelection && selection.Some?) then Crosshair
    else
      var r := selection.value.NormalizedRect();
      match HandleAt(r, p)
      case Some(h) => CursorForHandle(h)
      case None => if r.Contains(p) then OpenHand else Crosshair
  }

  // ---------------------------------------------------------------------------
  // Pointer-down classification

  /** The surface's own double-click test: the system's click count, or its own timestamp window. */
  predicate IsDoubleClick(clickCount: int, timestamp: real, lastClick: real, doubleClickInterval: real) {
    clickCount >= 2 || timestamp - lastClick < doubleClickInterval
  }

  /** What a pointer-down does. */
  datatype Press = ConfirmPress | ResizePress(handle: ResizeHandle) | MovePress | NewSelectionPress

  /** There is a finalized selection and the point lies inside its box. */
  predicate InsideFinalized(hasSelection: bool, selection: Option<SelectionRect>, p: Point) {
    hasSelection && selection.Some? && selection.value.NormalizedRect().Contains(p)
  }

  /**
   * The decision a pointer-down makes: confirm on a double click inside a
   * finalized selection; otherwise resize from a hit handle, which wins over
   * moving; move from inside; start a new selection everywhere else.
   */
  function PressOutcome(hasSelection: bool, selection: Option<SelectionRect>, lastClick: real,
                        p: Point, clickCount: int, timestamp: real, doubleClickInterval: real): (k: Press)
    ensures k.ConfirmPress? <==> InsideFinalized(hasSelection, selection, p)
                                  && IsDoubleClick(clickCount, timestamp, lastClick, doubleClickInterval)
    ensures k.ResizePress? ==>
              && hasSelection && selection.Some?
              && HandleAt(selection.value.NormalizedRect(), p) == Some(k.handle)
    ensures k.MovePress? ==>
              && InsideFinalized(hasSelection, selection, p)
              && HandleAt(selection.value.NormalizedRect(), p).None?
    ensures k.NewSelectionPress? <==>
              || !(hasSelection && selection.Some?)
              || (!selection.value.NormalizedRect().Contains(p) && HandleAt(selection.value.NormalizedRect(), p).None?)
    ensures hasSelection && selection.Some? && HandleAt(selection.value.NormalizedRect(), p).Some?
            ==> k.ConfirmPress? || k.ResizePress?
  {
    if !(hasSelection && selection.Some?) then NewSelectionPress
    else
      var r := selection.value.NormalizedRect();
      if r.Contains(p) && IsDoubleClick(clickCount, timestamp, lastClick, doubleClickInterval) then ConfirmPress
      else
        match HandleAt(r, p)
        case Some(h) => ResizePress(h)
        case None => if r.Contains(p) then MovePress else NewSelectionPress
  }

  /** A double click inside a finalized selection confirms it, even on a handle. */
  lemma DoubleClickInsideConfirms(hasSelection: bool, selection: Option<SelectionRect>, lastClick: real,
                                  p: Point, clickCount: int, timestamp: real, doubleClickInterval: real)
    requires InsideFinalized(hasSelection, selection, p)
    requires IsDoubleClick(clickCount, timestamp, lastClick, doubleClickInterval)
    ensures PressOutcome(hasSelection, selection, lastClick, p, clickCount, timestamp, doubleClickInterval) == ConfirmPress
  {
  }

  // ---------------------------------------------------------------------------
  // The surface

  class SelectionView {
    const bounds: Rect
    var selection: Option<SelectionRect>
    /** The selection is finalized: it shows handles and accepts move, resize and confirm. */
    var hasSelection: bool
    var lastClickInSelectionTime: real
    var dragMode: DragMode
    /** The cursor last set by the surface. */
    var cursor: Cursor

    /**
     * Between gestures a selection exists exactly when it is finalized, and
     * then it is not empty; during a gesture a selection exists, a new one is
     * not finalized, and a move or resize works on a finalized selection's box.
     */
    ghost predicate Valid()
      reads this
    {
      && (dragMode.NotDragging? ==> (hasSelection <==> selection.Some?))
      && (dragMode.NotDragging? && selection.Some? ==> !selection.value.IsEmpty())
      && (!dragMode.NotDragging? ==> selection.Some?)
      && (dragMode.NewSelection? ==> !hasSelection)
      && (dragMode.MoveSelection? || dragMode.ResizeSelection? ==> hasSelection && dragMode.originalRect.Standardized())
    }

    constructor (frame: Rect)
      ensures Valid()
      ensures bounds == frame && selection == None && !hasSelection
      ensures lastClickInSelectionTime == 0.0 && dragMode == NotDragging && cursor == Crosshair
    {
      bounds := frame;
      selection := None;
      hasSelection := false;
      lastClickInSelectionTime := 0.0;
      dragMode := NotDragging;
      cursor := Crosshair;
    }

    /** `hitTestHandle(at:)`: corners first, then edges, each in `allCases` order. */
    method HitTestHandle(point: Point) returns (res: Option<ResizeHandle>)
      ensures selection.None? ==> res.None?
      ensures selection.Some? ==> res == HandleAt(selection.value.NormalizedRect(), point)
    {
      if selection.None? {
        return None;
      }
      var rect := selection.value.NormalizedRect();
      var i := 0;
      while i < |AllHandles|
        invariant 0 <= i <= |AllHandles|
        invariant FirstHit(AllHandles[i..], true, rect, point) == FirstHit(AllHandles, true, rect, point)
      {
        var handle := AllHandles[i];
        assert AllHandles[i..][1..] == AllHandles[i + 1..];
        if handle.IsCorner() && Hits(handle, rect, point) {
          return Some(handle);
        }
        i := i + 1;
      }
      i := 0;
      while i < |AllHandles|
        invariant 0 <= i <= |AllHandles|
        invariant FirstHit(AllHandles, true, rect, point).None?
        invariant FirstHit(AllHandles[i..], false, rect, point) == FirstHit(AllHandles, false, rect, point)
      {
        var handle := AllHandles[i];
        assert AllHandles[i..][1..] == AllHandles[i + 1..];
        if !handle.IsCorner() && Hits(handle, rect, point) {
          return Some(handle);
        }
        i := i + 1;
      }
      return None;
    }

    /**
     * Pointer-down at `point`. A double click inside a finalized selection
     * confirms it and changes nothing; otherwise a click inside records its
     * time, and the press resizes, moves or starts a new selection as
     * PressOutcome decides.
     */
    method MouseDown(point: Point, clickCount: int, timestamp: real, doubleClickInterval: real)
      returns (ev: Option<SurfaceEvent>)
      requires Valid()
      modifies this
      ensures Valid()
      ensures var k := PressOutcome(old(hasSelection), old(selection), old(lastClickInSelectionTime),
                                    point, clickCount, timestamp, doubleClickInterval);
        && (k.ConfirmPress? ==>
              && ev == Some(DidConfirm(old(selection).value))
              && selection == old(selection) && hasSelection == old(hasSelection)
              && lastClickInSelectionTime == old(lastClickInSelectionTime)
              && dragMode == old(dragMode) && cursor == old(cursor))
        && (k.ResizePress? ==>
              && ev == None
              && dragMode == ResizeSelection(k.handle, old(selection).value.NormalizedRect())
              && selection == old(selection) && hasSelection == old(hasSelection)
              && lastClickInSelectionTime == (if old(selection).value.NormalizedRect().Contains(point)
                                              then timestamp else old(lastClickInSelectionTime))
              && cursor == old(cursor))
        && (k.MovePress? ==>
              && ev == None
              && dragMode == MoveSelection(point, old(selection).value.NormalizedRect())
              && selection == old(selection) && hasSelection == old(hasSelection)
              && lastClickInSelectionTime == timestamp
              && cursor == ClosedHand)
        && (k.NewSelectionPress? ==>
              && ev == Some(DidStartNewSelection)
              && dragMode == NewSelection
              && selection == Some(SelectionRect(point, point)) && !hasSelection
              && lastClickInSelectionTime == 0.0
              && cursor == old(cursor))
    {
      if hasSelection && selection.Some? {
        var sel := selection.value;
        if sel.NormalizedRect().Contains(point) {
          if IsDoubleClick(clickCount, timestamp, lastClickInSelectionTime, doubleClickInterval) {
            return Some(DidConfirm(sel));
          }
          lastClickInSelectionTime := timestamp;
        }
        var handle := HitTestHandle(point);
        if handle.Some? {
          dragMode := ResizeSelection(handle.value, sel.NormalizedRect());
          return None;
        }
        if sel.NormalizedRect().Contains(point) {
          dragMode := MoveSelection(point, sel.NormalizedRect());
          cursor := ClosedHand;
          return None;
        }
      }
      lastClickInSelectionTime := 0.0;
      dragMode := NewSelection;
      hasSelection := false;
      selection := Some(SelectionRect(point, point));
      return Some(DidStartNewSelection);
    }

    /**
     * Pointer-drag to `point`: a new selection's free end follows the pointer,
     * a move shows the original box offset and clamped to the bounds, a resize
     * shows the original box with the handle's edges moved. Without a gesture
     * nothing changes.
     */
    method MouseDragged(point: Point)
      requires Valid()
      modifies this`selection
      ensures Valid()
      ensures old(dragMode).NotDragging? ==> selection == old(selection)
      ensures old(dragMode).NewSelection? ==> selection == Some(old(selection).value.(end := point))
      ensures old(dragMode).MoveSelection? ==>
                selection == Some(FromRect(MovedRect(dragMode.originalRect, dragMode.startPoint, point, bounds)))
      ensures old(dragMode).ResizeSelection? ==>
                selection == Some(FromRect(ResizedRect(dragMode.originalRect, dragMode.handle, point)))
      ensures old(dragMode).MoveSelection? ==>
                selection.value.NormalizedRect().width == dragMode.originalRect.width &&
                selection.value.NormalizedRect().height == dragMode.originalRect.height
    {
      match dragMode
      case NotDragging =>
        return;
      case NewSelection =>
        selection := Some(selection.value.(end := point));
      case MoveSelection(startPoint, originalRect) =>
        var moved := MovedRect(originalRect, startPoint, point, bounds);
        FromRectRoundTrip(moved);
        selection := Some(FromRect(moved));
      case ResizeSelection(handle, originalRect) =>
        var newRect := ResizedRect(originalRect, handle, point);
        selection := Some(FromRect(newRect));
    }

    /**
     * Pointer-up at `point`. Without a gesture nothing happens. Otherwise the
     * gesture ends; a new selection's end first moves to the point. Whatever
     * the gesture was, a non-empty selection becomes finalized and is reported
     * with DidSelect, and an empty one is discarded without an event. The
     * cursor is then updated for the point.
     */
    method MouseUp(point: Point) returns (ev: Option<SurfaceEvent>)
      requires Valid()
      modifies this
      ensures Valid()
      ensures old(dragMode).NotDragging? ==>
                ev == None && selection == old(selection) && hasSelection == old(hasSelection)
                && dragMode == old(dragMode) && cursor == old(cursor)
      ensures lastClickInSelectionTime == old(lastClickInSelectionTime)
      ensures !old(dragMode).NotDragging? ==>
                var final := if old(dragMode).NewSelection? then old(selection).value.(end := point)
                             else old(selection).value;
                && dragMode == NotDragging
                && (!final.IsEmpty() ==> selection == Some(final) && hasSelection && ev == Some(DidSelect(final)))
                && (final.IsEmpty() ==> selection == None && !hasSelection && ev == None)
                && cursor == CursorAt(hasSelection, selection, point)
    {
      if dragMode.NotDragging? {
        return None;
      }
      var wasNewSelection := dragMode.NewSelection?;
      if wasNewSelection {
        selection := Some(selection.value.(end := point));
      }
      dragMode := NotDragging;
      ev := None;
      if selection.Some? && !selection.value.IsEmpty() {
        hasSelection := true;
        ev := Some(DidSelect(selection.value));
      } else if dragMode.NotDragging? {
        selection := None;
        hasSelection := false;
      }
      cursor := CursorAt(hasSelection, selection, point);
    }

    /** Pointer-move without a button: only the cursor changes. */
    method MouseMoved(point: Point)
      modifies this`cursor
      ensures cursor == CursorAt(hasSelection, selection, point)
    {
      cursor := CursorAt(hasSelection, selection, point);
    }

    /** Key press: Escape reports a cancel whatever the state; every other key is ignored. */
    method KeyDown(keyCode: int) returns (ev: Option<SurfaceEvent>)
      ensures ev.Some? <==> keyCode == EscapeKeyCode
      ensures ev.Some? ==> ev.value == DidCancel
    {
      if keyCode == EscapeKeyCode {
        return Some(DidCancel);
      }
      return None;
    }
  }
}
