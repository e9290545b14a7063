/**
 * The session coordinator: one selection surface per captured display, the
 * resolution of the active display, the placement of the floating toolbar,
 * the routing of surface events, and the teardown of the whole session.
 */
module Overlay {
  import opened Wrappers
  import opened Geometry
  import opened SelectionModel
  import opened Surface
  import opened ImageCropper

  /** The gap the toolbar keeps from the selection and from the surface's edges. */
  const ToolbarMargin: real := 8.0

  /** A display: its frame in global coordinates and its points-to-pixels factor. */
  datatype Screen = Screen(frame: Rect, backingScaleFactor: real)

  /** One display together with the raster captured from it. */
  datatype ScreenImage = ScreenImage(screen: Screen, image: Image)

  /** A borderless overlay window covering one display. */
  datatype OverlayWindow = OverlayWindow(frame: Rect)

  /** The toolbar shown on the surface at `viewIndex`, at `frame` in that surface's coordinates. */
  datatype Toolbar = Toolbar(viewIndex: nat, frame: Rect)

  /**
   * What the windowing system tells the coordinator at the moment of a call:
   * the pointer's global location, which surfaces' windows are key (by
   * surface index; missing entries are not key), and the toolbar's fitting size.
   */
  datatype Environment = Environment(mouseLocation: Point, keyWindows: seq<bool>, toolbarSize: Size)

  /** The input AppKit delivers to one surface. */
  datatype SurfaceInput =
    | MouseDownAt(point: Point, clickCount: int, timestamp: real, doubleClickInterval: real)
    | MouseDraggedTo(point: Point)
    | MouseUpAt(point: Point)
    | MouseMovedTo(point: Point)
    | KeyPress(keyCode: int)

  // ---------------------------------------------------------------------------
  // Toolbar placement

  /**
   * The toolbar's x: the selection's left edge, pulled inside the bounds'
   * margins; the right margin wins when the toolbar is too wide for both.
   */
  function ToolbarX(sel: Rect, bounds: Rect, width: real): (x: real)
    ensures x <= bounds.MaxX() - width - ToolbarMargin
    ensures width + 2.0 * ToolbarMargin <= bounds.width ==> bounds.MinX() + ToolbarMargin <= x
    ensures bounds.MinX() + ToolbarMargin <= sel.MinX() <= bounds.MaxX() - width - ToolbarMargin ==> x == sel.MinX()
    ensures sel.MinX() < bounds.MinX() + ToolbarMargin && width + 2.0 * ToolbarMargin <= bounds.width
            ==> x == bounds.MinX() + ToolbarMargin
    ensures sel.MinX() > bounds.MaxX() - width - ToolbarMargin || width + 2.0 * ToolbarMargin > bounds.width
            ==> x == bounds.MaxX() - width - ToolbarMargin
  {
    Min(Max(sel.MinX(), bounds.MinX() + ToolbarMargin), bounds.MaxX() - width - ToolbarMargin)
  }

  /** The toolbar fits between the selection's bottom edge and the bottom margin. */
  predicate FitsBelow(sel: Rect, bounds: Rect, height: real) {
    sel.MaxY() + ToolbarMargin + height <= bounds.MaxY() - ToolbarMargin
  }

  /** The toolbar fits between the top margin and the selection's top edge. */
  predicate FitsAbove(sel: Rect, bounds: Rect, height: real) {
    sel.MinY() - height - ToolbarMargin >= bounds.MinY() + ToolbarMargin
  }

  /**
   * The toolbar's y (y grows downward): below the selection when it fits,
   * else above it when that fits, else the below position clamped into the
   * margins. Since the below position does not fit in that last case, the
   * clamp always yields the bottom margin, or the top margin when the
   * toolbar is taller than the space between the margins.
   */
  function ToolbarY(sel: Rect, bounds: Rect, height: real): (y: real)
    ensures FitsBelow(sel, bounds, height) ==> y == sel.MaxY() + ToolbarMargin
    ensures !FitsBelow(sel, bounds, height) && FitsAbove(sel, bounds, height) ==> y + height == sel.MinY() - ToolbarMargin
    ensures !FitsBelow(sel, bounds, height) && !FitsAbove(sel, bounds, height) ==>
              y == Max(bounds.MinY() + ToolbarMargin, bounds.MaxY() - height - ToolbarMargin)
    ensures FitsBelow(sel, bounds, height) || FitsAbove(sel, bounds, height) ==>
              y >= sel.MaxY() + ToolbarMargin || y + height <= sel.MinY() - ToolbarMargin
    ensures sel.MaxY() >= bounds.MinY() ==> y >= bounds.MinY() + ToolbarMargin
    ensures sel.Standardized() && sel.Inside(bounds) && height + 2.0 * ToolbarMargin <= bounds.height ==>
              bounds.MinY() + ToolbarMargin <= y && y + height <= bounds.MaxY() - ToolbarMargin
  {
    var belowY := sel.MaxY() + ToolbarMargin;
    var aboveY := sel.MinY() - height - ToolbarMargin;
    if belowY + height <= bounds.MaxY() - ToolbarMargin then belowY
    else if aboveY >= bounds.MinY() + ToolbarMargin then aboveY
    else Max(bounds.MinY() + ToolbarMargin, Min(belowY, bounds.MaxY() - height - ToolbarMargin))
  }

  /** The toolbar's frame for a selection on a surface with the given bounds. */
  function ToolbarFrame(sel: SelectionRect, bounds: Rect, size: Size): (f: Rect)
    ensures f.width == size.width && f.height == size.height
    ensures f.x == ToolbarX(sel.NormalizedRect(), bounds, size.width)
    ensures f.y == ToolbarY(sel.NormalizedRect(), bounds, size.height)
    ensures size.width + 2.0 * ToolbarMargin <= bounds.width ==>
              bounds.MinX() + ToolbarMargin <= f.MinX() && f.MaxX() <= bounds.MaxX() - ToolbarMargin
    ensures sel.NormalizedRect().Inside(bounds) && size.height + 2.0 * ToolbarMargin <= bounds.height ==>
              bounds.MinY() + ToolbarMargin <= f.MinY() && f.MaxY() <= bounds.MaxY() - ToolbarMargin
  {
    var r := sel.NormalizedRect();
    Rect(ToolbarX(r, bounds, size.width), ToolbarY(r, bounds, size.height), size.width, size.height)
  }

  // ---------------------------------------------------------------------------
  // Active display resolution

  /** `NSMouseInRect(p, r, false)`: in unflipped coordinates the bottom edge is open and the top edge closed. */
  predicate MouseInRect(p: Point, r: Rect) {
    r.MinX() <= p.x < r.MaxX() && r.MinY() < p.y <= r.MaxY()
  }

  /** The index of the first true entry, as Swift's `firstIndex(where:)`. */
  function FirstTrue(flags: seq<bool>): (r: Option<nat>)
    ensures r.Some? ==> r.value < |flags| && flags[r.value] && forall j :: 0 <= j < r.value ==> !flags[j]
    ensures r.None? <==> forall j :: 0 <= j < |flags| ==> !flags[j]
  {
    if flags == [] then None
    else if flags[0] then Some(0)
    else
      match FirstTrue(flags[1..])
      case None => None
      case Some(i) => Some(i + 1)
  }

  /** For each captured display, whether the pointer is on it. */
  function UnderMouse(screenImages: seq<ScreenImage>, mouse: Point): (flags: seq<bool>)
    ensures |flags| == |screenImages|
    ensures forall i :: 0 <= i < |flags| ==> flags[i] == MouseInRect(mouse, screenImages[i].screen.frame)
  {
    seq(|screenImages|, i requires 0 <= i < |screenImages| => MouseInRect(mouse, screenImages[i].screen.frame))
  }

  /** For each of the first `viewCount` surfaces, whether its window is key. */
  function KeyFlags(viewCount: nat, keyWindows: seq<bool>): (flags: seq<bool>)
    ensures |flags| == viewCount
    ensures forall i :: 0 <= i < viewCount ==> flags[i] == (i < |keyWindows| && keyWindows[i])
  {
    seq(viewCount, i requires 0 <= i < viewCount => i < |keyWindows| && keyWindows[i])
  }

  /**
   * `resolvedActiveIndex`: the first display under the pointer, else the
   * first surface whose window is key, else 0; nothing only when no display
   * was captured and no surface is key.
   */
  function ResolvedActiveIndex(screenImages: seq<ScreenImage>, viewCount: nat, env: Environment): (r: Option<nat>)
    ensures r.None? <==> |screenImages| == 0 && forall i :: 0 <= i < viewCount ==> !(i < |env.keyWindows| && env.keyWindows[i])
    ensures r.Some? ==> r.value < |screenImages| || r.value < viewCount
    ensures forall i :: 0 <= i < |screenImages| && MouseInRect(env.mouseLocation, screenImages[i].screen.frame) ==>
              r.Some? && r.value <= i && MouseInRect(env.mouseLocation, screenImages[r.value].screen.frame)
    ensures && (forall i :: 0 <= i < |screenImages| ==> !MouseInRect(env.mouseLocation, screenImages[i].screen.frame))
            && (forall i :: 0 <= i < viewCount ==> !(i < |env.keyWindows| && env.keyWindows[i]))
            && |screenImages| > 0
            ==> r == Some(0)
    ensures forall j :: (forall i :: 0 <= i < |screenImages| ==> !MouseInRect(env.mouseLocation, screenImages[i].screen.frame))
                        && 0 <= j < viewCount && j < |env.keyWindows| && env.keyWindows[j]
                        ==> r.Some? && r.value <= j && r.value < |env.keyWindows| && env.keyWindows[r.value]
  {
    match FirstTrue(UnderMouse(screenImages, env.mouseLocation))
    case Some(i) => Some(i)
    case None =>
      match FirstTrue(KeyFlags(viewCount, env.keyWindows))
      case Some(i) => Some(i)
      case None => if |screenImages| == 0 then None else Some(0)
  }

  /** `activeIndex ?? resolvedActiveIndex()` */
  function TargetIndex(activeIndex: Option<int>, screenImages: seq<ScreenImage>, viewCount: nat, env: Environment): (r: Option<int>)
    ensures activeIndex.Some? ==> r == activeIndex
    ensures activeIndex.None? && |screenImages| > 0 ==> r.Some?
    ensures activeIndex.None? ==>
              (r.None? <==> ResolvedActiveIndex(screenImages, viewCount, env).None?)
              && (r.Some? ==> r.value == ResolvedActiveIndex(screenImages, viewCount, env).value)
  {
    match activeIndex
    case Some(i) => Some(i)
    case None =>
      match ResolvedActiveIndex(screenImages, viewCount, env)
      case Some(i) => Some(i)
      case None => None
  }

  /** The crop a save or copy produces on display `index`: none for an index out of range or a failed crop. */
  function CropOn(screenImages: seq<ScreenImage>, index: Option<int>, sel: SelectionRect): (r: Option<CroppedImage>)
    ensures r.Some? ==> index.Some? && 0 <= index.value < |screenImages|
    ensures r.Some? ==> r.value.source == screenImages[index.value].image
    ensures r.Some? ==> r.value.rect.Inside(ImageBounds(screenImages[index.value].image))
    ensures index.Some? && 0 <= index.value < |screenImages| ==>
              r == Crop(screenImages[index.value].image, sel, screenImages[index.value].screen.backingScaleFactor)
  {
    if index.Some? && 0 <= index.value < |screenImages| then
      var target := screenImages[index.value];
      Crop(target.image, sel, target.screen.backingScaleFactor)
    else None
  }

  /** The images a write of `r` adds: one when the crop succeeded, none otherwise. */
  function Written(r: Option<CroppedImage>): (s: seq<CroppedImage>)
    ensures |s| <= 1
    ensures r.Some? ==> s == [r.value]
    ensures r.None? ==> s == []
  {
    if r.Some? then [r.value] else []
  }

  // ---------------------------------------------------------------------------
  // The coordinator

  /** A surface covering `screen` at its own origin, with no selection and no gesture. */
  ghost predicate IdleSurfaceFor(v: SelectionView, screen: Screen)
    reads v
  {
    && v.bounds == Rect(0.0, 0.0, screen.frame.width, screen.frame.height)
    && v.selection == None && !v.hasSelection && v.dragMode == NotDragging
    && v.cursor == Crosshair && v.lastClickInSelectionTime == 0.0
  }

  class OverlayWindowController {
    var windows: seq<OverlayWindow>
    var selectionViews: seq<SelectionView>
    var screenImages: seq<ScreenImage>
    var toolbar: Option<Toolbar>
    var currentSelection: Option<SelectionRect>
    var activeIndex: Option<int>
    /** Every image written to the clipboard, oldest first. */
    var clipboard: seq<CroppedImage>
    /** Every image written to a file, oldest first. */
    var savedFiles: seq<CroppedImage>
    /** The host's `onDismiss` callback has run. */
    var dismissNotified: bool

    /** One window per surface, every surface consistent, and the toolbar on an existing surface. */
    ghost predicate Valid()
      reads this, selectionViews
    {
      && |windows| == |selectionViews|
      && (forall i :: 0 <= i < |selectionViews| ==> selectionViews[i].Valid())
      && (toolbar.Some? ==> toolbar.value.viewIndex < |selectionViews|)
    }

    constructor (images: seq<ScreenImage>)
      ensures Valid()
      ensures screenImages == images && windows == [] && selectionViews == []
      ensures toolbar == None && currentSelection == None && activeIndex == None
      ensures clipboard == [] && savedFiles == [] && !dismissNotified
    {
      screenImages := images;
      windows := [];
      selectionViews := [];
      toolbar := None;
      currentSelection := None;
      activeIndex := None;
      clipboard := [];
      savedFiles := [];
      dismissNotified := false;
    }

    /**
     * `show`: one window and one fresh, idle surface per captured display,
     * in the same order, each surface as large as its display's frame.
     */
    method Show()
      requires Valid()
      modifies this
      ensures Valid()
      ensures screenImages == old(screenImages) && toolbar == old(toolbar)
      ensures currentSelection == old(currentSelection) && activeIndex == old(activeIndex)
      ensures clipboard == old(clipboard) && savedFiles == old(savedFiles) && dismissNotified == old(dismissNotified)
      ensures |selectionViews| == |old(selectionViews)| + |screenImages|
      ensures selectionViews[..|old(selectionViews)|] == old(selectionViews)
      ensures |windows| == |old(windows)| + |screenImages|
      ensures windows[..|old(windows)|] == old(windows)
      ensures forall k :: 0 <= k < |screenImages| ==>
                windows[|old(windows)| + k] == OverlayWindow(screenImages[k].screen.frame)
      ensures forall k :: 0 <= k < |screenImages| ==> IdleSurfaceFor(selectionViews[|old(selectionViews)| + k], screenImages[k].screen)
      ensures forall k :: |old(selectionViews)| <= k < |selectionViews| ==> fresh(selectionViews[k])
    {
      ghost var views0, windows0 := selectionViews, windows;
      var i := 0;
      while i < |screenImages|
        invariant 0 <= i <= |screenImages|
        invariant Valid()
        invariant screenImages == old(screenImages) && toolbar == old(toolbar)
        invariant currentSelection == old(currentSelection) && activeIndex == old(activeIndex)
        invariant clipboard == old(clipboard) && savedFiles == old(savedFiles) && dismissNotified == old(dismissNotified)
        invariant |selectionViews| == |views0| + i && selectionViews[..|views0|] == views0
        invariant |windows| == |windows0| + i && windows[..|windows0|] == windows0
        invariant forall k :: 0 <= k < i ==> windows[|windows0| + k] == OverlayWindow(screenImages[k].screen.frame)
        invariant forall k :: 0 <= k < i ==> IdleSurfaceFor(selectionViews[|views0| + k], screenImages[k].screen)
        invariant forall k :: |views0| <= k < |selectionViews| ==> fresh(selectionViews[k])
      {
        var screen := screenImages[i].screen;
        var window := OverlayWindow(screen.frame);
        var selectionView := new SelectionView(Rect(0.0, 0.0, screen.frame.width, screen.frame.height));
        windows := windows + [window];
        selectionViews := selectionViews + [selectionView];
        i := i + 1;
      }
    }

    /**
     * `dismiss`: hides the toolbar, drops every window, surface and captured
     * image, forgets the selection and the active display, and notifies the host.
     */
    method Dismiss()
      modifies this
      ensures Valid()
      ensures toolbar == None && windows == [] && selectionViews == [] && screenImages == []
      ensures currentSelection == None && activeIndex == None && dismissNotified
      ensures clipboard == old(clipboard) && savedFiles == old(savedFiles)
    {
      HideToolbar();
      windows := [];
      selectionViews := [];
      screenImages := [];
      currentSelection := None;
      activeIndex := None;
      dismissNotified := true;
    }

    method HideToolbar()
      modifies this`toolbar
      ensures toolbar == None
    {
      toolbar := None;
    }

    /**
     * `showToolbar(for:)`: the old toolbar goes; a new one is placed on the
     * target surface only when the target index names an existing surface.
     */
    method ShowToolbar(sel: SelectionRect, env: Environment)
      requires Valid()
      modifies this`toolbar
      ensures Valid()
      ensures var index := TargetIndex(activeIndex, screenImages, |selectionViews|, env);
              if index.Some? && 0 <= index.value < |selectionViews| then
                toolbar == Some(Toolbar(index.value, ToolbarFrame(sel, selectionViews[index.value].bounds, env.toolbarSize)))
              else toolbar == None
    {
      HideToolbar();
      var index := TargetIndex(activeIndex, screenImages, |selectionViews|, env);
      if index.None? || !(0 <= index.value < |selectionViews|) {
        return;
      }
      var targetView := selectionViews[index.value];
      toolbar := Some(Toolbar(index.value, ToolbarFrame(sel, targetView.bounds, env.toolbarSize)));
    }

    /** `cropAndCopy(selection:)`: the crop on the target display, when it succeeds, goes to the clipboard. */
    method CropAndCopy(sel: SelectionRect, env: Environment)
      modifies this`clipboard
      ensures clipboard == old(clipboard) +
                Written(CropOn(screenImages, TargetIndex(activeIndex, screenImages, |selectionViews|, env), sel))
    {
      var index := TargetIndex(activeIndex, screenImages, |selectionViews|, env);
      if index.None? || !(0 <= index.value < |screenImages|) {
        return;
      }
      var target := screenImages[index.value];
      var cropped := Crop(target.image, sel, target.screen.backingScaleFactor);
      if cropped.Some? {
        clipboard := clipboard + [cropped.value];
      }
    }

    /** A surface finalized a selection: remember it, resolve the active display, show the toolbar there. */
    method SelectionViewDidSelect(rect: SelectionRect, env: Environment)
      requires Valid()
      modifies this`currentSelection, this`activeIndex, this`toolbar
      ensures Valid()
      ensures currentSelection == Some(rect)
      ensures activeIndex == ResolvedActiveIndex(screenImages, |selectionViews|, env)
      ensures var index := activeIndex;
              if index.Some? && 0 <= index.value < |selectionViews| then
                toolbar == Some(Toolbar(index.value, ToolbarFrame(rect, selectionViews[index.value].bounds, env.toolbarSize)))
              else toolbar == None
    {
      currentSelection := Some(rect);
      activeIndex := match ResolvedActiveIndex(screenImages, |selectionViews|, env)
                     case Some(i) => Some(i)
                     case None => None;
      ShowToolbar(rect, env);
    }

    /** A surface confirmed a selection: crop it onto the clipboard, then end the session. */
    method SelectionViewDidConfirm(rect: SelectionRect, env: Environment)
      modifies this
      ensures Valid() && dismissNotified && toolbar == None
      ensures selectionViews == [] && windows == [] && screenImages == []
      ensures currentSelection == None && activeIndex == None
      ensures clipboard == old(clipboard) +
                Written(CropOn(old(screenImages), TargetIndex(old(activeIndex), old(screenImages), |old(selectionViews)|, env), rect))
      ensures savedFiles == old(savedFiles)
    {
      CropAndCopy(rect, env);
      Dismiss();
    }

    /** A surface was cancelled with Escape: end the session. */
    method SelectionViewDidCancel()
      modifies this
      ensures Valid() && dismissNotified && toolbar == None
      ensures selectionViews == [] && windows == [] && screenImages == []
      ensures currentSelection == None && activeIndex == None
      ensures clipboard == old(clipboard) && savedFiles == old(savedFiles)
    {
      Dismiss();
    }

    /** A surface started a new selection: the toolbar disappears at once and nothing else changes. */
    method SelectionViewDidStartNewSelection()
      requires Valid()
      modifies this`toolbar
      ensures Valid() && toolbar == None
    {
      HideToolbar();
    }

    /** The toolbar's Copy button: copy the current selection, if any, then always end the session. */
    method CopySelection(env: Environment)
      modifies this
      ensures Valid() && dismissNotified && toolbar == None
      ensures selectionViews == [] && windows == [] && screenImages == []
      ensures currentSelection == None && activeIndex == None
      ensures clipboard == old(clipboard) +
                (if old(currentSelection).None? then []
                 else Written(CropOn(old(screenImages), TargetIndex(old(activeIndex), old(screenImages), |old(selectionViews)|, env),
                                     old(currentSelection).value)))
      ensures savedFiles == old(savedFiles)
    {
      if currentSelection.Some? {
        CropAndCopy(currentSelection.value, env);
      }
      Dismiss();
    }

    /**
     * The toolbar's Save button: a successful crop of the current selection
     * goes to both the clipboard and a file; the session always ends, also
     * without a selection or with a failed crop.
     */
    method SaveSelection(env: Environment)
      modifies this
      ensures Valid() && dismissNotified && toolbar == None
      ensures selectionViews == [] && windows == [] && screenImages == []
      ensures currentSelection == None && activeIndex == None
      ensures var written := if old(currentSelection).None? then []
                             else Written(CropOn(old(screenImages),
                                                 TargetIndex(old(activeIndex), old(screenImages), |old(selectionViews)|, env),
                                                 old(currentSelection).value));
              clipboard == old(clipboard) + written && savedFiles == old(savedFiles) + written
    {
      if currentSelection.Some? {
        var index := TargetIndex(activeIndex, screenImages, |selectionViews|, env);
        if index.Some? && 0 <= index.value < |screenImages| {
          var target := screenImages[index.value];
          var cropped := Crop(target.image, currentSelection.value, target.screen.backingScaleFactor);
          if cropped.Some? {
            clipboard := clipboard + [cropped.value];
            savedFiles := savedFiles + [cropped.value];
          }
        }
      }
      Dismiss();
    }

    /** The delegate: hands one surface event to the callback for it. */
    method Route(ev: Option<SurfaceEvent>, env: Environment)
      requires Valid()
      modifies this
      ensures Valid()
      ensures ev.None? ==> unchanged(this)
      ensures ev == Some(DidStartNewSelection) ==>
                toolbar == None && selectionViews == old(selectionViews) && currentSelection == old(currentSelection)
                && activeIndex == old(activeIndex) && dismissNotified == old(dismissNotified)
      ensures ev.Some? && ev.value.DidSelect? ==>
                && currentSelection == Some(ev.value.rect) && selectionViews == old(selectionViews)
                && screenImages == old(screenImages) && dismissNotified == old(dismissNotified)
                && activeIndex == ResolvedActiveIndex(screenImages, |selectionViews|, env)
      ensures ev == Some(DidStartNewSelection) ==> screenImages == old(screenImages)
      ensures ev.Some? && (ev.value.DidConfirm? || ev.value.DidCancel?) ==>
                dismissNotified && toolbar == None && selectionViews == [] && screenImages == []
      ensures ev.Some? && ev.value.DidConfirm? ==>
                clipboard == old(clipboard) +
                  Written(CropOn(old(screenImages), TargetIndex(old(activeIndex), old(screenImages), |old(selectionViews)|, env),
                                 ev.value.rect))
      ensures !(ev.Some? && ev.value.DidConfirm?) ==> clipboard == old(clipboard)
      ensures savedFiles == old(savedFiles)
      ensures ev.Some? && ev.value.DidSelect? ==>
                && windows == old(windows)
                && if activeIndex.Some? && 0 <= activeIndex.value < |selectionViews| then
                     toolbar == Some(Toolbar(activeIndex.value,
                                             ToolbarFrame(ev.value.rect, selectionViews[activeIndex.value].bounds, env.toolbarSize)))
                   else toolbar == None
      ensures ev == Some(DidStartNewSelection) ==> windows == old(windows)
      ensures ev.Some? && (ev.value.DidConfirm? || ev.value.DidCancel?) ==>
                windows == [] && currentSelection == None && activeIndex == None
    {
      match ev
      case None =>
      case Some(DidStartNewSelection) => SelectionViewDidStartNewSelection();
      case Some(DidSelect(rect)) => SelectionViewDidSelect(rect, env);
      case Some(DidConfirm(rect)) => SelectionViewDidConfirm(rect, env);
      case Some(DidCancel) => SelectionViewDidCancel();
    }

    /**
     * Input to surface `i`: the surface handles it and reports to this
     * coordinator, which reacts before the next input arrives.
     */
    method Dispatch(i: nat, input: SurfaceInput, env: Environment) returns (ev: Option<SurfaceEvent>)
      requires Valid() && i < |selectionViews|
      modifies this, selectionViews[i]
      ensures Valid()
      ensures input.KeyPress? ==> ev == (if input.keyCode == EscapeKeyCode then Some(DidCancel) else None)
      ensures ev.Some? && (ev.value.DidConfirm? || ev.value.DidCancel?) ==> dismissNotified && selectionViews == []
      ensures ev == None ==> selectionViews == old(selectionViews) && toolbar == old(toolbar)
                              && dismissNotified == old(dismissNotified)
      ensures ev == None ==> currentSelection == old(currentSelection) && activeIndex == old(activeIndex)
                              && windows == old(windows) && screenImages == old(screenImages)
      ensures ev.Some? && ev.value.DidConfirm? ==>
                clipboard == old(clipboard) +
                  Written(CropOn(old(screenImages), TargetIndex(old(activeIndex), old(screenImages), |old(selectionViews)|, env),
                                 ev.value.rect))
      ensures !(ev.Some? && ev.value.DidConfirm?) ==> clipboard == old(clipboard)
      ensures savedFiles == old(savedFiles)
      ensures ev.Some? && ev.value.DidSelect? ==>
                && currentSelection == Some(ev.value.rect) && selectionViews == old(selectionViews)
                && screenImages == old(screenImages) && dismissNotified == old(dismissNotified)
                && activeIndex == ResolvedActiveIndex(screenImages, |selectionViews|, env)
      ensures ev == Some(DidStartNewSelection) ==>
                && toolbar == None && selectionViews == old(selectionViews) && screenImages == old(screenImages)
                && currentSelection == old(currentSelection) && activeIndex == old(activeIndex)
                && dismissNotified == old(dismissNotified)
      ensures input.MouseDraggedTo? || input.MouseMovedTo? ==> ev == None
      ensures input.MouseMovedTo? ==>
                old(selectionViews)[i].cursor
                == CursorAt(old(selectionViews)[i].hasSelection, old(selectionViews)[i].selection, input.point)
      ensures input.MouseUpAt? && ev.Some? ==>
                ev.value.DidSelect? && old(selectionViews)[i].hasSelection && old(selectionViews)[i].selection == Some(ev.value.rect)
      ensures input.MouseDownAt? ==>
                var k := PressOutcome(old(selectionViews[i].hasSelection), old(selectionViews[i].selection),
                                      old(selectionViews[i].lastClickInSelectionTime),
                                      input.point, input.clickCount, input.timestamp, input.doubleClickInterval);
                && (k.ConfirmPress? ==> ev == Some(DidConfirm(old(selectionViews[i].selection).value)))
                && (k.ResizePress? || k.MovePress? ==> ev == None)
                && (k.NewSelectionPress? ==>
                      && ev == Some(DidStartNewSelection)
                      && old(selectionViews)[i].selection == Some(SelectionRect(input.point, input.point))
                      && !old(selectionViews)[i].hasSelection)
      ensures ev.Some? && ev.value.DidSelect? ==>
                && windows == old(windows)
                && if activeIndex.Some? && 0 <= activeIndex.value < |selectionViews| then
                     toolbar == Some(Toolbar(activeIndex.value,
                                             ToolbarFrame(ev.value.rect, selectionViews[activeIndex.value].bounds, env.toolbarSize)))
                   else toolbar == None
      ensures ev == Some(DidStartNewSelection) ==> windows == old(windows)
      ensures ev.Some? && (ev.value.DidConfirm? || ev.value.DidCancel?) ==>
                windows == [] && currentSelection == None && activeIndex == None
    {
      var view := selectionViews[i];
      match input {
        case MouseDownAt(p, clickCount, timestamp, interval) =>
          ev := view.MouseDown(p, clickCount, timestamp, interval);
        case MouseDraggedTo(p) =>
          view.MouseDragged(p);
          ev := None;
        case MouseUpAt(p) =>
          ev := view.MouseUp(p);
        case MouseMovedTo(p) =>
          view.MouseMoved(p);
          ev := None;
        case KeyPress(code) =>
          ev := view.KeyDown(code);
      }
      Route(ev, env);
    }
  }
}
